/** Open files: the descriptor table's reads, vectored reads and seeks. */
module FileTable {
  import opened Dwarfs
  import opened Kernel
  import opened Resolver
  import opened ReturnCodes
  import opened Routing
  import opened Words
  import opened Wrappers

  datatype Errno = EINVAL | EOVERFLOW | EROFS | ENOTDIR | ELOOP | ENOENT | EACCES | NoErrno

  /** What opening a path was told about it by the lookup. */
  datatype StatReply = Attributes(st: Stat) | OutsideLink | NoSuchFile

  /** The flags that matter: any of O_RDWR, O_WRONLY, O_TRUNC and O_CREAT; O_DIRECTORY; O_NOFOLLOW. */
  datatype Flags = Flags(write: bool, directory: bool, noFollow: bool)

  /** An open file: the attributes it was opened with, its position, and the dummy kernel descriptor it owns. */
  datatype Fd = Fd(st: Stat, pos: nat, lock: int, handle: int)

  datatype Whence = SeekSet | SeekCur | SeekEnd | BadWhence

  /** The bytes of a file from `pos` on, at most `n` of them; none past its end. */
  function Slice(data: seq<Byte>, pos: nat, n: nat): (r: seq<Byte>)
    ensures |r| == if pos >= |data| then 0 else Min(n, |data| - pos)
    ensures forall i | 0 <= i < |r| :: r[i] == data[pos + i]
  {
    if pos >= |data| then [] else data[pos..Min(pos + n, |data|)]
  }

  /** The file that an inode number leads to: the calls on it are routed by its top bits. */
  function FileOf(w: World, ino: nat): Option<seq<Byte>> {
    var k := Owner(w, ino);
    if k !in w.images then None
    else
      var img := w.images[k];
      var n := img.Find(ino);
      if n.Some? && img.nodes[n.value].File? then Some(img.nodes[n.value].data) else None
  }

  /** The number of every inode of a mounted image leads to its own bytes, if it is a file. */
  lemma FileOfIs(w: World, k: nat, n: nat)
    requires IsMounted(w) && k in w.images && n in w.images[k].nodes
    ensures var img := w.images[k];
            FileOf(w, img.GetAttr(n).ino) == if img.nodes[n].File? then Some(img.nodes[n].data) else None
  {
    hide Owner, IsMounted;
    GetAttrReaches(w, k, n);
  }

  /** `inode_read`: the byte count passes through an `int`. */
  function InodeRead(w: World, ino: nat, n: nat, pos: nat): (int, seq<Byte>) {
    var file := FileOf(w, ino);
    if file.None? then (IO_ERROR, [])
    else
      var bytes := Slice(file.value, pos, n);
      var err := ToI32(|bytes|);
      if err < 0 then (IO_ERROR, bytes) else (err, bytes)
  }

  /** lseek() of the System Interfaces volume of POSIX.1-2017, for a signed 64-bit offset type. */
  datatype Seek = Moved(pos: nat) | Refused(errno: Errno)

  function PosixSeek(pos: nat, size: nat, offset: int, whence: Whence): Seek {
    if whence == BadWhence then Refused(EINVAL)
    else
      var target := (match whence case SeekSet => 0 case SeekCur => pos case _ => size) + offset;
      if target < 0 then Refused(EINVAL)
      else if target > INT64_MAX then Refused(EOVERFLOW)
      else Moved(target)
  }

  function Sum(lens: seq<nat>): nat {
    if lens == [] then 0 else lens[0] + Sum(lens[1..])
  }

  /** No vector can take more of the file than an `int` can count. */
  predicate FitInts(data: seq<Byte>, lens: seq<nat>) {
    forall i | 0 <= i < |lens| :: Min(lens[i], |data|) <= INT32_MAX
  }

  /** The vectors that `readv` gets to: it stops at the first empty one. */
  function UpToEmpty(lens: seq<nat>): seq<nat> {
    if lens == [] || lens[0] == 0 then [] else [lens[0]] + UpToEmpty(lens[1..])
  }

  /** Bytes laid out across buffers of the given positive lengths, in order; buffers past the last byte get none. */
  function Chop(bytes: seq<Byte>, lens: seq<nat>): seq<seq<Byte>> {
    if lens == [] || bytes == [] then []
    else
      var n := Min(lens[0], |bytes|);
      [bytes[..n]] + Chop(bytes[n..], lens[1..])
  }

  function Flatten(bufs: seq<seq<Byte>>): seq<Byte> {
    if bufs == [] then [] else bufs[0] + Flatten(bufs[1..])
  }

  /** Nothing is lost or moved: the buffers in order hold the bytes. */
  lemma {:induction false} ChopHoldsAll(bytes: seq<Byte>, lens: seq<nat>)
    requires |bytes| <= Sum(lens)
    ensures Flatten(Chop(bytes, lens)) == bytes
    decreases |lens|
  {
    if lens == [] || bytes == [] {
    } else {
      var n := Min(lens[0], |bytes|);
      ChopHoldsAll(bytes[n..], lens[1..]);
      assert bytes == bytes[..n] + bytes[n..];
    }
  }

  /** Reading on where a read stopped. */
  lemma SliceOn(data: seq<Byte>, pos: nat, n: nat, more: nat)
    ensures var first := Slice(data, pos, n);
            && Slice(data, pos, n + more) == first + Slice(data, pos + |first|, more)
            && (first == [] && n > 0 ==> Slice(data, pos, n + more) == [])
  {
  }

  /** A position and a file size that fit the offset type. */
  predicate IsSound(fd: Fd) {
    fd.pos <= INT64_MAX && fd.st.size <= INT64_MAX
  }

  /** What reading vectors in turn returns, the buffers filled, and the position afterwards: as in `readv`,
      which ends at an error or at the first vector that gets nothing. */
  function ReadVectors(w: World, ino: nat, pos: nat, lens: seq<nat>, total: int): (int, seq<seq<Byte>>, nat)
    decreases |lens|
  {
    if lens == [] then (total, [], pos)
    else
      var (r, bytes) := InodeRead(w, ino, lens[0], pos);
      if r > 0 then
        var (ret, bufs, end) := ReadVectors(w, ino, pos + r, lens[1..], total + r);
        (ret, [bytes] + bufs, end)
      else (if r < 0 then IO_ERROR else total, [], pos)
  }

  // ---------- Calls on one open file, and runs of them ----------

  datatype Call = CallRead(n: nat) | CallReadV(lens: seq<nat>) | CallSeek(offset: int, whence: Whence)

  /** The number of bytes that a call asks for. */
  function Asks(call: Call): nat {
    match call
    case CallRead(n) => n
    case CallReadV(lens) => Sum(UpToEmpty(lens))
    case CallSeek(_, _) => 0
  }

  /** The bytes that a call delivers. */
  function Delivered(fd: Fd, data: seq<Byte>, call: Call): seq<Byte> {
    Slice(data, fd.pos, Asks(call))
  }

  /** The entry after a call. */
  function After(fd: Fd, data: seq<Byte>, call: Call): Fd {
    match call
    case CallSeek(offset, whence) =>
      (match PosixSeek(fd.pos, fd.st.size, offset, whence)
       case Moved(pos) => fd.(pos := pos)
       case Refused(_) => fd)
    case _ => fd.(pos := fd.pos + |Delivered(fd, data, call)|)
  }

  function AfterAll(fd: Fd, data: seq<Byte>, calls: seq<Call>): Fd
    decreases |calls|
  {
    if calls == [] then fd else AfterAll(After(fd, data, calls[0]), data, calls[1..])
  }

  function DeliveredAll(fd: Fd, data: seq<Byte>, calls: seq<Call>): seq<Byte>
    decreases |calls|
  {
    if calls == [] then []
    else Delivered(fd, data, calls[0]) + DeliveredAll(After(fd, data, calls[0]), data, calls[1..])
  }

  function Demand(calls: seq<Call>): nat {
    if calls == [] then 0 else Asks(calls[0]) + Demand(calls[1..])
  }

  /** What a call takes of the file fits an `int`, what it seeks is an offset that can be negated if need be. */
  predicate CallFits(data: seq<Byte>, call: Call) {
    match call
    case CallRead(n) => Min(n, |data|) <= INT32_MAX
    case CallReadV(lens) => FitInts(data, lens)
    case CallSeek(offset, whence) => IsI64(offset) && (whence == SeekCur || whence == SeekEnd ==> offset > INT64_MIN)
  }

  lemma SameFile(fd: Fd, data: seq<Byte>, call: Call)
    ensures After(fd, data, call).st == fd.st
  {
  }

  /** Whatever is called, the position never leaves the offset type: no sum on the way wraps. */
  lemma {:induction false} PositionStaysSound(fd: Fd, data: seq<Byte>, calls: seq<Call>)
    requires IsSound(fd) && |data| <= INT64_MAX
    ensures IsSound(AfterAll(fd, data, calls)) && AfterAll(fd, data, calls).handle == fd.handle
    decreases |calls|
  {
    if calls == [] {
    } else {
      PositionStaysSound(After(fd, data, calls[0]), data, calls[1..]);
    }
  }

  /** Reads and vectored reads without a seek between them deliver consecutive parts of the file: together
      they are one read of everything they ask for. */
  lemma {:induction false} ReadsAreConsecutive(fd: Fd, data: seq<Byte>, calls: seq<Call>)
    requires forall i | 0 <= i < |calls| :: !calls[i].CallSeek?
    ensures DeliveredAll(fd, data, calls) == Slice(data, fd.pos, Demand(calls))
    ensures AfterAll(fd, data, calls) == fd.(pos := fd.pos + |DeliveredAll(fd, data, calls)|)
    decreases |calls|
  {
    if calls != [] {
      hide Slice, Asks;
      ReadsAreConsecutive(After(fd, data, calls[0]), data, calls[1..]);
      SliceOn(data, fd.pos, Asks(calls[0]), Demand(calls[1..]));
    } else {
      assert Slice(data, fd.pos, 0) == [];
    }
  }

  /** What vectors are still to deliver, and how it is spread across them. */
  function Left(data: seq<Byte>, pos: nat, lens: seq<nat>): seq<Byte> {
    Slice(data, pos, Sum(UpToEmpty(lens)))
  }

  function Spread(data: seq<Byte>, pos: nat, lens: seq<nat>): seq<seq<Byte>> {
    Chop(Left(data, pos, lens), UpToEmpty(lens))
  }

  lemma ChopCons(first: seq<Byte>, left: seq<Byte>, n: nat, lens: seq<nat>)
    requires first != [] && |first| == Min(n, |first| + |left|)
    ensures Chop(first + left, [n] + lens) == [first] + Chop(left, lens)
  {
    var bytes := first + left;
    assert ([n] + lens)[1..] == lens;
    assert bytes[..|first|] == first && bytes[|first|..] == left;
  }

  /** What one vector takes from what the vectors are still to deliver. */
  lemma ReadOn(data: seq<Byte>, pos: nat, lens: seq<nat>)
    requires lens != []
    ensures var first := Slice(data, pos, lens[0]);
            && (first == [] ==> Left(data, pos, lens) == [] && Spread(data, pos, lens) == [])
            && (first != [] ==>
                  && |Left(data, pos, lens)| == |first| + |Left(data, pos + |first|, lens[1..])|
                  && Spread(data, pos, lens) == [first] + Spread(data, pos + |first|, lens[1..]))
  {
    hide Slice, Chop, UpToEmpty, Sum;
    var first, u := Slice(data, pos, lens[0]), UpToEmpty(lens[1..]);
    if lens[0] == 0 {
      NoBytes(data, pos, lens);
    } else {
      SumCons(lens);
      SliceOn(data, pos, lens[0], Sum(u));
      if first == [] {
        ChopNothing(UpToEmpty(lens));
      } else {
        FirstSlice(data, pos, lens[0], Sum(u));
        ChopCons(first, Left(data, pos + |first|, lens[1..]), lens[0], u);
      }
    }
  }

  lemma NoBytes(data: seq<Byte>, pos: nat, lens: seq<nat>)
    requires lens != [] && lens[0] == 0
    ensures Slice(data, pos, 0) == [] && Left(data, pos, lens) == [] && Spread(data, pos, lens) == []
  {
  }

  lemma ChopNothing(lens: seq<nat>)
    ensures Chop([], lens) == []
  {
  }

  lemma SumCons(lens: seq<nat>)
    requires lens != [] && lens[0] > 0
    ensures UpToEmpty(lens) == [lens[0]] + UpToEmpty(lens[1..])
    ensures Sum(UpToEmpty(lens)) == lens[0] + Sum(UpToEmpty(lens[1..]))
  {
    assert ([lens[0]] + UpToEmpty(lens[1..]))[1..] == UpToEmpty(lens[1..]);
  }

  lemma FirstSlice(data: seq<Byte>, pos: nat, n: nat, more: nat)
    ensures var first := Slice(data, pos, n);
            |first| == Min(n, |first| + |Slice(data, pos + |first|, more)|)
  {
  }

  /** A read is exact just when what there is to deliver fits an `int`; it never claims more than that. */
  lemma InodeReadIs(w: World, ino: nat, n: nat, pos: nat)
    ensures match FileOf(w, ino)
            case None => InodeRead(w, ino, n, pos) == (IO_ERROR, [])
            case Some(data) =>
              var slice := Slice(data, pos, n);
              && (InodeRead(w, ino, n, pos) == (|slice|, slice) <==> |slice| <= INT32_MAX)
              && |slice| == (if pos >= |data| then 0 else if n < |data| - pos then n else |data| - pos)
              && (forall i | 0 <= i < |slice| :: slice[i] == data[pos + i])
              && IO_ERROR <= InodeRead(w, ino, n, pos).0 <= |slice|
              && (pos + |slice| <= Max(pos, |data|))
  {
    hide FileOf;
  }

  /** The count reported is what an `int` makes of the number of bytes read, and a failure if that is negative. */
  lemma CountIs(w: World, ino: nat, n: nat, pos: nat)
    requires FileOf(w, ino).Some?
    ensures var slice := Slice(FileOf(w, ino).value, pos, n);
            && InodeRead(w, ino, n, pos).1 == slice
            && InodeRead(w, ino, n, pos).0 ==
               (var r := |slice| % 0x1_0000_0000; if r <= 0x7FFF_FFFF then r else IO_ERROR)
  {
    hide FileOf;
  }

  lemma NeverBelow(w: World, ino: nat, n: nat, pos: nat)
    ensures InodeRead(w, ino, n, pos).0 >= IO_ERROR
  {
    hide FileOf;
  }

  lemma LeftIs(lens: seq<nat>)
    ensures forall fd: Fd, data: seq<Byte> :: Delivered(fd, data, CallReadV(lens)) == Left(data, fd.pos, lens)
  {
  }

  lemma NoVectors(data: seq<Byte>, pos: nat)
    ensures Left(data, pos, []) == [] && Spread(data, pos, []) == []
  {
  }

  lemma ReadVectorsNext(w: World, ino: nat, pos: nat, lens: seq<nat>, total: int)
    requires lens != []
    ensures var (r, bytes) := InodeRead(w, ino, lens[0], pos);
            && (r <= 0 ==> ReadVectors(w, ino, pos, lens, total) == (if r < 0 then IO_ERROR else total, [], pos))
            && (r > 0 ==> ReadVectors(w, ino, pos, lens, total) ==
                          (var rest := ReadVectors(w, ino, pos + r, lens[1..], total + r);
                           (rest.0, [bytes] + rest.1, rest.2)))
  {
    hide InodeRead;
  }

  lemma ReadVectorsEnd(w: World, ino: nat, pos: nat, total: int)
    ensures ReadVectors(w, ino, pos, [], total) == (total, [], pos)
  {
  }

  /** Vectors that fit are read as one read spread across them. */
  lemma ReadVectorsIs(w: World, fd: Fd, lens: seq<nat>)
    ensures match FileOf(w, fd.st.ino)
            case None =>
              ReadVectors(w, fd.st.ino, fd.pos, lens, 0) == (if lens == [] then 0 else IO_ERROR, [], fd.pos)
            case Some(data) =>
              FitInts(data, lens) ==>
                ReadVectors(w, fd.st.ino, fd.pos, lens, 0) ==
                (|Delivered(fd, data, CallReadV(lens))|, Spread(data, fd.pos, lens),
                 After(fd, data, CallReadV(lens)).pos)
  {
    hide FileOf, InodeRead, Slice, Spread, UpToEmpty, Sum;
    LeftIs(lens);
    match FileOf(w, fd.st.ino) {
      case None =>
        if lens == [] {
        } else {
          InodeReadIs(w, fd.st.ino, lens[0], fd.pos);
        }
      case Some(data) =>
        if FitInts(data, lens) {
          FittingVectors(w, fd.st.ino, data, fd.pos, lens, 0);
        }
    }
  }

  lemma {:induction false} FittingVectors(w: World, ino: nat, data: seq<Byte>, pos: nat, lens: seq<nat>, total: nat)
    requires FileOf(w, ino) == Some(data) && FitInts(data, lens)
    ensures var left := Left(data, pos, lens);
            ReadVectors(w, ino, pos, lens, total) == (total + |left|, Spread(data, pos, lens), pos + |left|)
    decreases |lens|
  {
    hide FileOf, InodeRead, Slice, Left, Spread, ReadVectors;
    if lens == [] {
      NoVectors(data, pos);
      ReadVectorsEnd(w, ino, pos, total);
    } else {
      InodeReadIs(w, ino, lens[0], pos);
      ReadVectorsNext(w, ino, pos, lens, total);
      ReadOn(data, pos, lens);
      var first := Slice(data, pos, lens[0]);
      if first != [] {
        FittingVectors(w, ino, data, pos + |first|, lens[1..], total + |first|);
      }
    }
  }

  /** Vectors are read until one gets nothing or fails; if it fails the whole call does, whatever was read before it. */
  lemma {:induction false} VectorsStop(w: World, ino: nat, pos: nat, lens: seq<nat>, total: nat)
    ensures var (ret, bufs, end) := ReadVectors(w, ino, pos, lens, total);
            && |bufs| <= |lens|
            && (|bufs| < |lens| ==> InodeRead(w, ino, lens[|bufs|], end).0 <= 0)
            && (ret == IO_ERROR <==> |bufs| < |lens| && InodeRead(w, ino, lens[|bufs|], end).0 < 0)
            && (ret != IO_ERROR ==> ret == total + end - pos)
    decreases |lens|
  {
    hide InodeRead, ReadVectors;
    if lens == [] {
      ReadVectorsEnd(w, ino, pos, total);
    } else {
      NeverBelow(w, ino, lens[0], pos);
      ReadVectorsNext(w, ino, pos, lens, total);
      var (r, bytes) := InodeRead(w, ino, lens[0], pos);
      if r > 0 {
        VectorsStop(w, ino, pos + r, lens[1..], total + r);
      }
    }
  }

  lemma FitIs(data: seq<Byte>, lens: seq<nat>)
    ensures (forall i | 0 <= i < |lens| :: lens[i] <= INT32_MAX || |data| <= INT32_MAX) <==> FitInts(data, lens)
  {
  }

  lemma SignedBack()
    ensures forall x: nat | x <= INT64_MAX :: ToI64(x) == x
  {
  }

  lemma KeysAfter<V>(m: map<int, V>, k: int, v: V)
    ensures m[k := v].Keys == m.Keys + {k} && (m - {k}).Keys == m.Keys - {k}
    ensures k in m ==> m[k := v].Keys == m.Keys
  {
  }

  /** Buffers are filled in order, each to the full before the next one gets anything, up to an empty one or the
      end of the file. */
  lemma SpreadIs(data: seq<Byte>, pos: nat, lens: seq<nat>)
    ensures var bufs := Spread(data, pos, lens);
            && |Flatten(bufs)| == |Left(data, pos, lens)|
            && (forall i | 0 <= i < |Flatten(bufs)| :: Flatten(bufs)[i] == data[pos + i])
            && |bufs| <= |lens|
            && (forall i | 0 <= i < |bufs| :: 0 < |bufs[i]| <= lens[i] && (i + 1 < |bufs| ==> |bufs[i]| == lens[i]))
            && (pos + |Flatten(bufs)| < |data| && |bufs| < |lens| ==> lens[|bufs|] == 0)
  {
    var u, left := UpToEmpty(lens), Left(data, pos, lens);
    ChopHoldsAll(left, u);
    UpToEmptyIs(lens);
    ChopFills(left, u);
    hide Chop, Flatten, UpToEmpty;
  }

  lemma {:induction false} UpToEmptyIs(lens: seq<nat>)
    ensures var u := UpToEmpty(lens);
            && |u| <= |lens| && (forall i | 0 <= i < |u| :: u[i] == lens[i] > 0) && (|u| < |lens| ==> lens[|u|] == 0)
    decreases |lens|
  {
    if lens == [] || lens[0] == 0 {
    } else {
      UpToEmptyIs(lens[1..]);
    }
  }

  lemma {:induction false} ChopFills(bytes: seq<Byte>, lens: seq<nat>)
    requires |bytes| <= Sum(lens) && forall i | 0 <= i < |lens| :: lens[i] > 0
    ensures var bufs := Chop(bytes, lens);
            && |bufs| <= |lens|
            && (forall i | 0 <= i < |bufs| :: 0 < |bufs[i]| <= lens[i] && (i + 1 < |bufs| ==> |bufs[i]| == lens[i]))
            && (|bufs| < |lens| ==> |bytes| < Sum(lens))
    decreases |lens|
  {
    if lens == [] || bytes == [] {
    } else {
      ChopFills(bytes[Min(lens[0], |bytes|)..], lens[1..]);
    }
  }

  /** `readv` and `read` agree: put together in order, what lands in the vectors is what one read of the
      summed length of the vectors before the first empty one delivers. */
  lemma ReadVIsRead(fd: Fd, data: seq<Byte>, lens: seq<nat>)
    ensures Flatten(Spread(data, fd.pos, lens)) == Delivered(fd, data, CallRead(Sum(UpToEmpty(lens))))
    ensures After(fd, data, CallReadV(lens)) == After(fd, data, CallRead(Sum(UpToEmpty(lens))))
  {
    ChopHoldsAll(Left(data, fd.pos, lens), UpToEmpty(lens));
  }

  /** Why an open file is refused, if it is. */
  function Refusal(stat: StatReply, flags: Flags): Errno {
    match stat
    case Attributes(st) =>
      if flags.write then EROFS
      else if st.kind != Directory && flags.directory then ENOTDIR
      else if st.kind == Symlink && flags.noFollow then ELOOP
      else NoErrno
    case OutsideLink => NoErrno
    case NoSuchFile => if flags.write then EROFS else ENOENT
  }

  class FileTable {
    var fds: map<int, Fd>

    /** The descriptors open in the whole process, the library's own among them. */
    var process: set<int>

    /** What the library has taken from the kernel and given back so far. */
    ghost var log: seq<Event>

    /** Every position stays within the offset type, every key is the kernel descriptor that its entry
        owns, and the keys are exactly the descriptors the library holds. */
    ghost predicate Valid()
      reads this
    {
      && (forall vfd | vfd in fds :: IsSound(fds[vfd]) && fds[vfd].handle == vfd)
      && fds.Keys <= process
      && Held(log) == Some(fds.Keys)
    }

    constructor (process: set<int>)
      ensures Valid() && fds == map[] && this.process == process && log == []
    {
      fds, this.process, log := map[], process, [];
      var none: map<int, Fd> := map[];
      assert none.Keys == {};
    }

    /** `open`, given what the lookup said; `dupped` is the descriptor that dup(0) will return. The entry
        made replaces none. */
    method Open(stat: StatReply, flags: Flags, dupped: int) returns (ret: int, errno: Errno)
      requires Valid() && dupped >= 0 && dupped !in process
      requires stat.Attributes? ==> stat.st.size <= INT64_MAX
      modifies this
      ensures Valid() && dupped !in old(fds)
      ensures stat.Attributes? && Refusal(stat, flags) == NoErrno ==>
                && ret == dupped
                && fds == old(fds)[dupped := Fd(stat.st, 0, 0, dupped)]
                && log == old(log) + [Dupped(dupped)] && process == old(process) + {dupped}
      ensures !(stat.Attributes? && Refusal(stat, flags) == NoErrno) ==>
                && ret == (if stat.OutsideLink? then LINK_OUTSIDE else IO_ERROR)
                && errno == Refusal(stat, flags)
                && fds == old(fds) && log == old(log) && process == old(process)
      ensures match stat
              case Attributes(st) =>
                if flags.write then ret == IO_ERROR && errno == EROFS && fds == old(fds)
                else if st.kind != Directory && flags.directory then ret == IO_ERROR && errno == ENOTDIR && fds == old(fds)
                else if st.kind == Symlink && flags.noFollow then ret == IO_ERROR && errno == ELOOP && fds == old(fds)
                else ret == dupped && errno == NoErrno && fds == old(fds)[dupped := Fd(st, 0, 0, dupped)]
              case OutsideLink => ret == LINK_OUTSIDE && fds == old(fds)
              case NoSuchFile => ret == IO_ERROR && errno == (if flags.write then EROFS else ENOENT) && fds == old(fds)
    {
      ret, errno := IO_ERROR, NoErrno;
      match stat {
        case Attributes(st) =>
          if flags.write {
            errno := EROFS;
          } else if st.kind != Directory && flags.directory {
            errno := ENOTDIR;
          } else if st.kind == Symlink && flags.noFollow {
            errno := ELOOP;
          } else {
            ret := Dup(dupped);
            KeysAfter(fds, ret, Fd(st, 0, 0, ret));
            fds := fds[ret := Fd(st, 0, 0, ret)];
          }
        case OutsideLink =>
          ret := LINK_OUTSIDE;
        case NoSuchFile =>
          errno := if flags.write then EROFS else ENOENT;
      }
    }

    method Dup(dupped: int) returns (ret: int)
      requires Held(log).Some? && dupped !in Held(log).value
      modifies this`process, this`log
      ensures ret == dupped && process == old(process) + {dupped} && log == old(log) + [Dupped(dupped)]
      ensures Held(log) == Some(old(Held(log)).value + {dupped})
    {
      HeldNext(log, Dupped(dupped));
      ret, process, log := dupped, process + {dupped}, log + [Dupped(dupped)];
    }

    /** `openat`: the directory's attributes are checked before the lookup relative to it is used. */
    method OpenAt(vfd: int, searchable: bool, stat: StatReply, flags: Flags, dupped: int) returns (ret: int, errno: Errno)
      requires Valid() && dupped >= 0 && dupped !in process
      requires stat.Attributes? ==> stat.st.size <= INT64_MAX
      modifies this
      ensures Valid() && dupped !in old(fds)
      ensures var opens := vfd in old(fds) && old(fds)[vfd].st.kind == Directory && searchable &&
                           stat.Attributes? && Refusal(stat, flags) == NoErrno;
              && (opens ==> ret == dupped && fds == old(fds)[dupped := Fd(stat.st, 0, 0, dupped)]
                            && log == old(log) + [Dupped(dupped)] && process == old(process) + {dupped})
              && (!opens ==>
                    && fds == old(fds) && log == old(log) && process == old(process)
                    && if vfd !in old(fds) then ret == INVALID_FD
                       else if old(fds)[vfd].st.kind != Directory then ret == IO_ERROR && errno == ENOTDIR
                       else if !searchable then ret == IO_ERROR && errno == EACCES
                       else ret == (if stat.OutsideLink? then LINK_OUTSIDE else IO_ERROR) && errno == Refusal(stat, flags))
      ensures vfd in old(fds) && old(fds)[vfd].st.kind == Directory && searchable ==>
                match stat
                case Attributes(st) =>
                  if flags.write then ret == IO_ERROR && errno == EROFS && fds == old(fds)
                  else if st.kind != Directory && flags.directory then ret == IO_ERROR && errno == ENOTDIR && fds == old(fds)
                  else if st.kind == Symlink && flags.noFollow then ret == IO_ERROR && errno == ELOOP && fds == old(fds)
                  else ret == dupped && errno == NoErrno && fds == old(fds)[dupped := Fd(st, 0, 0, dupped)]
                case OutsideLink => ret == LINK_OUTSIDE && fds == old(fds)
                case NoSuchFile => ret == IO_ERROR && errno == (if flags.write then EROFS else ENOENT) && fds == old(fds)
    {
      ret, errno := INVALID_FD, NoErrno;
      if vfd in fds {
        ret := IO_ERROR;
        if fds[vfd].st.kind != Directory {
          errno := ENOTDIR;
        } else if searchable {
          ret, errno := Open(stat, flags, dupped);
        } else {
          errno := EACCES;
        }
      }
    }

    /** `close`: erasing an entry closes the kernel descriptor it owns. */
    method Close(vfd: int) returns (ret: int)
      requires Valid()
      modifies this
      ensures Valid()
      ensures vfd in old(fds) ==>
                ret == 0 && fds == old(fds) - {vfd} && log == old(log) + [Closed(vfd)] && process == old(process) - {vfd}
      ensures vfd !in old(fds) ==> ret == INVALID_FD && fds == old(fds) && log == old(log) && process == old(process)
    {
      if vfd in fds {
        var handle := fds[vfd].handle;
        HeldNext(log, Closed(handle));
        KeysAfter(fds, vfd, fds[vfd]);
        fds := fds - {vfd};
        process := process - {handle};
        log := log + [Closed(handle)];
        ret := 0;
      } else {
        ret := INVALID_FD;
      }
    }

    /** `close_all` */
    method CloseAll()
      requires Valid()
      modifies this
      ensures Valid() && fds == map[] && process == old(process) - old(fds).Keys
      ensures old(log) <= log
    {
      var keys := fds.Keys;
      while keys != {}
        invariant Valid() && keys == fds.Keys && keys <= old(fds).Keys && old(log) <= log
        invariant process == old(process) - (old(fds).Keys - keys)
        decreases keys
      {
        ghost var some := SomeIn(keys);
        assert some in keys;
        var vfd :| vfd in keys;
        KeysAfter(fds, vfd, fds[vfd]);
        var _ := Close(vfd);
        keys := keys - {vfd};
      }
    }

    /** The rest of the process opens a descriptor, or closes one that is not the library's. */
    method HostChanges(taken: set<int>, dropped: set<int>)
      requires Valid() && dropped !! fds.Keys
      modifies this`process
      ensures Valid() && process == old(process) + taken - dropped
    {
      process := process + taken - dropped;
    }

    /** `read`: the position moves on by what is returned, and what is returned is the part of the file
        under it unless that part is too long for an `int`. */
    method Read(w: World, vfd: int, n: nat) returns (ret: int, bytes: seq<Byte>)
      requires Valid()
      requires vfd in fds && FileOf(w, fds[vfd].st.ino).Some? ==> |FileOf(w, fds[vfd].st.ino).value| <= INT64_MAX
      modifies this`fds
      ensures Valid()
      ensures vfd !in old(fds) ==> ret == INVALID_FD && fds == old(fds)
      ensures vfd in old(fds) ==>
                var fd := old(fds)[vfd];
                && (ret, bytes) == InodeRead(w, fd.st.ino, n, fd.pos)
                && fds == old(fds)[vfd := fd.(pos := fd.pos + Max(ret, 0))]
                && match FileOf(w, fd.st.ino)
                   case None => ret == IO_ERROR && fds == old(fds)
                   case Some(data) =>
                     |Delivered(fd, data, CallRead(n))| <= INT32_MAX ==>
                       && bytes == Delivered(fd, data, CallRead(n)) && ret == |bytes|
                       && fds == old(fds)[vfd := After(fd, data, CallRead(n))]
      ensures vfd in old(fds) && FileOf(w, old(fds)[vfd].st.ino).Some? ==>
                var pos, data := old(fds)[vfd].pos, FileOf(w, old(fds)[vfd].st.ino).value;
                var left := if pos >= |data| then 0 else |data| - pos;
                var r := (if n < left then n else left) % 0x1_0000_0000;
                && |bytes| == (if n < left then n else left)
                && (forall i | 0 <= i < |bytes| :: bytes[i] == data[pos + i])
                && ret == (if r <= 0x7FFF_FFFF then r else IO_ERROR)
    {
      hide FileOf, InodeRead, Slice;
      ret, bytes := INVALID_FD, [];
      if vfd in fds {
        var fd := fds[vfd];
        InodeReadIs(w, fd.st.ino, n, fd.pos);
        if FileOf(w, fd.st.ino).Some? {
          CountIs(w, fd.st.ino, n, fd.pos);
        }
        var r := InodeRead(w, fd.st.ino, n, fd.pos);
        ret, bytes := r.0, r.1;
        KeysAfter(fds, vfd, fd.(pos := ToU64(fd.pos + ret)));
        if ret > 0 {
          fds := fds[vfd := fd.(pos := ToU64(fd.pos + ret))];
        } else {
          assert fds == fds[vfd := fd];
        }
      }
    }

    /** One vector of `readv`, `total` bytes having been read before it: stop at an error or when nothing
        is delivered. Neither of the two overflow branches is ever taken, whatever the length. */
    method ReadVector(w: World, vfd: int, n: nat, total: nat) returns (stop: bool, ret: int, bytes: seq<Byte>, errno: Errno)
      requires Valid() && vfd in fds && total <= fds[vfd].pos
      requires FileOf(w, fds[vfd].st.ino).Some? ==> |FileOf(w, fds[vfd].st.ino).value| <= INT64_MAX
      modifies this`fds
      ensures Valid() && errno == NoErrno
      ensures var fd := old(fds)[vfd];
              var (r, read) := InodeRead(w, fd.st.ino, n, fd.pos);
              && (stop <==> r <= 0)
              && ret == (if r > 0 then total + r else if r < 0 then IO_ERROR else total)
              && bytes == (if r > 0 then read else [])
              && fds == old(fds)[vfd := fd.(pos := fd.pos + Max(r, 0))]
    {
      hide FileOf, InodeRead;
      stop, ret, bytes, errno := false, total, [], NoErrno;
      var fd := fds[vfd];
      InodeReadIs(w, fd.st.ino, n, fd.pos);
      var r := InodeRead(w, fd.st.ino, n, fd.pos);
      if r.0 > 0 {
        bytes := r.1;
        if fd.pos > ToU64(INT64_MAX - r.0) {
          stop, errno, ret := true, EOVERFLOW, IO_ERROR;
        } else if total > INT64_MAX - r.0 {
          stop, errno, ret := true, EINVAL, IO_ERROR;
        } else {
          KeysAfter(fds, vfd, fd.(pos := ToU64(fd.pos + r.0)));
          fds := fds[vfd := fd.(pos := ToU64(fd.pos + r.0))];
          ret := total + r.0;
        }
      } else {
        stop := true;
        if r.0 < 0 {
          ret := IO_ERROR;
        }
        assert fds == fds[vfd := fd];
      }
    }

    /** For any vectors, empty ones included, `readv` reads them in turn until one delivers nothing. That is
        one read of the summed length of the vectors before the first empty one, spread across them in order,
        unless some vector could take more of the file than an `int` can count; no overflow is ever reported,
        not even then. */
    method ReadV(w: World, vfd: int, lens: seq<nat>, count: int) returns (ret: int, bufs: seq<seq<Byte>>, errno: Errno)
      requires Valid() && (count < 0 || count == |lens|)
      requires vfd in fds && FileOf(w, fds[vfd].st.ino).Some? ==> |FileOf(w, fds[vfd].st.ino).value| <= INT64_MAX
      modifies this`fds
      ensures Valid()
      ensures count < 0 ==> ret == IO_ERROR && errno == EINVAL && fds == old(fds)
      ensures count >= 0 ==> errno == NoErrno
      ensures count >= 0 && vfd !in old(fds) ==> ret == INVALID_FD && fds == old(fds)
      ensures count >= 0 && vfd in old(fds) ==>
                var fd := old(fds)[vfd];
                && vfd in fds && (ret, bufs, fds[vfd].pos) == ReadVectors(w, fd.st.ino, fd.pos, lens, 0)
                && fds == old(fds)[vfd := fd.(pos := fds[vfd].pos)]
      ensures count >= 0 && vfd in old(fds) ==>
                var fd := old(fds)[vfd];
                match FileOf(w, fd.st.ino)
                case None => ret == (if lens == [] then 0 else IO_ERROR) && fds == old(fds)
                case Some(data) =>
                  FitInts(data, lens) ==>
                    && ret == |Delivered(fd, data, CallReadV(lens))|
                    && bufs == Spread(data, fd.pos, lens)
                    && fds == old(fds)[vfd := After(fd, data, CallReadV(lens))]
      ensures count >= 0 && vfd in old(fds) && FileOf(w, old(fds)[vfd].st.ino).Some? ==>
                var pos, data := old(fds)[vfd].pos, FileOf(w, old(fds)[vfd].st.ino).value;
                (forall i | 0 <= i < |lens| :: lens[i] <= INT32_MAX || |data| <= INT32_MAX) ==>
                  && |Flatten(bufs)| == ret && (forall i | 0 <= i < ret :: Flatten(bufs)[i] == data[pos + i])
                  && |bufs| <= |lens|
                  && (forall i | 0 <= i < |bufs| :: 0 < |bufs[i]| <= lens[i] && (i + 1 < |bufs| ==> |bufs[i]| == lens[i]))
                  && (pos + ret < |data| && |bufs| < |lens| ==> lens[|bufs|] == 0)
      ensures count >= 0 && vfd in old(fds) ==>
                var ino, pos := old(fds)[vfd].st.ino, fds[vfd].pos;
                && |bufs| <= |lens|
                && (|bufs| < |lens| ==> InodeRead(w, ino, lens[|bufs|], pos).0 <= 0)
                && (ret == IO_ERROR <==> |bufs| < |lens| && InodeRead(w, ino, lens[|bufs|], pos).0 < 0)
                && (ret != IO_ERROR ==> ret == pos - old(fds)[vfd].pos)
    {
      hide FileOf, InodeRead, ReadVectors, Slice, Left, Spread, FitInts, Flatten;
      ret, bufs, errno := INVALID_FD, [], NoErrno;
      if count < 0 {
        return IO_ERROR, [], EINVAL;
      }
      if vfd !in fds {
        return;
      }
      ghost var fd := fds[vfd];
      ret, bufs, errno := ReadInTurn(w, vfd, lens);
      VectorsStop(w, fd.st.ino, fd.pos, lens, 0);
      ReadVectorsIs(w, fd, lens);
      if FileOf(w, fd.st.ino).Some? {
        var data := FileOf(w, fd.st.ino).value;
        FitIs(data, lens);
        SpreadIs(data, fd.pos, lens);
        LeftIs(lens);
      }
    }

    /** The loop of `readv`. */
    method ReadInTurn(w: World, vfd: int, lens: seq<nat>) returns (ret: int, bufs: seq<seq<Byte>>, errno: Errno)
      requires Valid() && vfd in fds
      requires FileOf(w, fds[vfd].st.ino).Some? ==> |FileOf(w, fds[vfd].st.ino).value| <= INT64_MAX
      modifies this`fds
      ensures Valid() && errno == NoErrno
      ensures var fd := old(fds)[vfd];
              && vfd in fds && (ret, bufs, fds[vfd].pos) == ReadVectors(w, fd.st.ino, fd.pos, lens, 0)
              && fds == old(fds)[vfd := fd.(pos := fds[vfd].pos)]
    {
      hide FileOf, InodeRead, ReadVectors;
      ret, bufs, errno := 0, [], NoErrno;
      var i := 0;
      ghost var fd := fds[vfd];
      assert lens[0..] == lens;
      assert fds == fds[vfd := fd];
      while i < |lens|
        invariant Valid() && 0 <= i <= |lens| && errno == NoErrno
        invariant vfd in fds && fds == old(fds)[vfd := fd.(pos := fds[vfd].pos)] && 0 <= ret <= fds[vfd].pos
        invariant var all, rest := ReadVectors(w, fd.st.ino, fd.pos, lens, 0), ReadVectors(w, fd.st.ino, fds[vfd].pos, lens[i..], ret);
                  all.0 == rest.0 && all.1 == bufs + rest.1 && all.2 == rest.2
      {
        assert lens[i..][0] == lens[i] && lens[i..][1..] == lens[i + 1..];
        ReadVectorsNext(w, fd.st.ino, fds[vfd].pos, lens[i..], ret);
        InodeReadIs(w, fd.st.ino, lens[i], fds[vfd].pos);
        var stop, bytes;
        stop, ret, bytes, errno := ReadVector(w, vfd, lens[i], ret);
        if stop {
          assert bufs + [] == bufs;
          return;
        }
        bufs := bufs + [bytes];
        i := i + 1;
      }
      assert lens[i..] == [] && bufs + [] == bufs;
      ReadVectorsEnd(w, fd.st.ino, fds[vfd].pos, ret);
    }

    method LSeek(vfd: int, offset: int, whence: Whence) returns (ret: int, errno: Errno)
      requires Valid()
      requires IsI64(offset) && (whence == SeekCur || whence == SeekEnd ==> offset > INT64_MIN)
      modifies this`fds
      ensures Valid()
      ensures vfd !in old(fds) ==> ret == INVALID_FD && fds == old(fds)
      ensures vfd in old(fds) ==>
                var fd := old(fds)[vfd];
                && fds == old(fds)[vfd := After(fd, [], CallSeek(offset, whence))]
                && match PosixSeek(fd.pos, fd.st.size, offset, whence)
                   case Moved(pos) => ret == pos && fds[vfd].pos == pos
                   case Refused(e) => ret == IO_ERROR && errno == e && fds == old(fds)
      ensures vfd in old(fds) ==>
                && (whence == BadWhence ==> ret == IO_ERROR && errno == EINVAL && fds == old(fds))
                && (whence != BadWhence ==>
                      var fd := old(fds)[vfd];
                      var target := if whence == SeekSet then offset
                                    else if whence == SeekCur then fd.pos + offset else fd.st.size + offset;
                      && (0 <= target <= INT64_MAX ==> ret == target && fds == old(fds)[vfd := fd.(pos := target)])
                      && (target < 0 ==> ret == IO_ERROR && errno == EINVAL && fds == old(fds))
                      && (target > INT64_MAX ==> ret == IO_ERROR && errno == EOVERFLOW && fds == old(fds)))
    {
      hide ToU64, ToI64;
      SignedBack();
      ret, errno := INVALID_FD, NoErrno;
      if vfd in fds {
        var fd := fds[vfd];
        var pos := fd.pos;
        match whence {
          case SeekSet =>
            if offset < 0 {
              ret, errno := IO_ERROR, EINVAL;
            } else {
              pos := ToU64(offset);
              ret := ToI64(pos);
            }
          case SeekCur =>
            if offset < 0 && fd.pos < ToU64(-offset) {
              ret, errno := IO_ERROR, EINVAL;
            } else if offset > 0 && fd.pos > ToU64(INT64_MAX - offset) {
              ret, errno := IO_ERROR, EOVERFLOW;
            } else {
              pos := ToU64(fd.pos + ToU64(offset));
              ret := ToI64(pos);
            }
          case SeekEnd =>
            if offset < 0 && fd.st.size < -offset {
              ret, errno := IO_ERROR, EINVAL;
            } else if offset > 0 && fd.st.size > INT64_MAX - offset {
              ret, errno := IO_ERROR, EOVERFLOW;
            } else {
              pos := ToU64(fd.st.size + offset);
              ret := ToI64(pos);
            }
          case BadWhence =>
            ret, errno := IO_ERROR, EINVAL;
        }
        assert fds == fds[vfd := fd];
        KeysAfter(fds, vfd, fd.(pos := pos));
        fds := fds[vfd := fd.(pos := pos)];
      }
    }

    /** One call on an open file, and the bytes that it delivers, put together. */
    method Do(w: World, vfd: int, call: Call) returns (bytes: seq<Byte>)
      requires Valid() && vfd in fds && FileOf(w, fds[vfd].st.ino).Some?
      requires var data := FileOf(w, fds[vfd].st.ino).value; |data| <= INT64_MAX && CallFits(data, call)
      modifies this`fds
      ensures Valid() && vfd in fds
      ensures var fd, data := old(fds)[vfd], FileOf(w, old(fds)[vfd].st.ino).value;
              bytes == Delivered(fd, data, call) && fds == old(fds)[vfd := After(fd, data, call)]
    {
      hide FileOf, InodeRead, ReadVectors, Spread, Flatten, PosixSeek;
      ghost var fd := fds[vfd];
      ghost var data := FileOf(w, fd.st.ino).value;
      match call {
        case CallRead(n) =>
          var _, read := Read(w, vfd, n);
          bytes := read;
        case CallReadV(lens) =>
          var _, bufs, _ := ReadV(w, vfd, lens, |lens|);
          ReadVIsRead(fd, data, lens);
          bytes := Flatten(bufs);
        case CallSeek(offset, whence) =>
          var _, _ := LSeek(vfd, offset, whence);
          bytes := [];
          assert Delivered(fd, data, call) == [];
      }
    }

    /** Any run of reads, vectored reads and seeks on an open file delivers what the calls in turn deliver from
        where each finds the position. Without seeks that is one part of the file, as long as all ask for. */
    method Run(w: World, vfd: int, calls: seq<Call>) returns (bytes: seq<Byte>)
      requires Valid() && vfd in fds && FileOf(w, fds[vfd].st.ino).Some?
      requires var data := FileOf(w, fds[vfd].st.ino).value;
               |data| <= INT64_MAX && forall i | 0 <= i < |calls| :: CallFits(data, calls[i])
      modifies this`fds
      ensures Valid() && vfd in fds
      ensures var fd, data := old(fds)[vfd], FileOf(w, old(fds)[vfd].st.ino).value;
              && bytes == DeliveredAll(fd, data, calls) && fds == old(fds)[vfd := AfterAll(fd, data, calls)]
              && ((forall i | 0 <= i < |calls| :: !calls[i].CallSeek?) ==>
                    && bytes == Slice(data, fd.pos, Demand(calls))
                    && forall i | 0 <= i < |bytes| :: bytes[i] == data[fd.pos + i])
    {
      hide FileOf, Valid, Delivered, After, CallFits, Slice, Demand;
      ghost var fd := fds[vfd];
      ghost var data := FileOf(w, fd.st.ino).value;
      bytes := [];
      var i := 0;
      assert calls[0..] == calls && fds == fds[vfd := fd];
      while i < |calls|
        invariant 0 <= i <= |calls| && Valid() && vfd in fds && fds == old(fds)[vfd := fds[vfd]]
        invariant fds[vfd].st == fd.st
        invariant DeliveredAll(fd, data, calls) == bytes + DeliveredAll(fds[vfd], data, calls[i..])
        invariant AfterAll(fd, data, calls) == AfterAll(fds[vfd], data, calls[i..])
      {
        assert calls[i..][0] == calls[i] && calls[i..][1..] == calls[i + 1..];
        SameFile(fds[vfd], data, calls[i]);
        var more := Do(w, vfd, calls[i]);
        bytes := bytes + more;
        i := i + 1;
      }
      assert calls[i..] == [];
      if forall j | 0 <= j < |calls| :: !calls[j].CallSeek? {
        ReadsAreConsecutive(fd, data, calls);
      }
    }
  }
}
