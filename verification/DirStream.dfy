/** Open directories: a window of 50 entries that behaves like the whole list with a cursor. */
module DirStream {
  import opened Dwarfs
  import opened PathText
  import opened ReturnCodes
  import opened Words

  /** TEBAKO_DIR_CACHE_SIZE */
  const WINDOW: nat := 50

  /** `struct dirent`: inode number, offset and name. */
  datatype Dirent = Dirent(ino: nat, off: int, name: string)

  /** A directory as its image lists it, the inode numbers starting at the image's root inode. */
  datatype Listing = Listing(root: nat, entries: seq<Entry>)

  /** What a descriptor leads to when a window is to be loaded from it. */
  datatype Source = Entries(dir: Listing) | NoDirectory | NoDescriptor

  function DirentAt(dir: Listing, i: nat): Dirent
    requires i < |dir.entries|
  {
    var e := dir.entries[i];
    Dirent(dir.root + e.local, i, if |e.name| <= PATH_LENGTH then e.name else e.name[..PATH_LENGTH])
  }

  /** The test by which `readdir` asks for a new window, in the machine's mixed arithmetic. */
  predicate NeedsLoad(position: int, start: int, size: nat) {
    ToU64(position) > ToU64(start + size - 1) || position < start
  }

  /** The test is the intended one, `position` outside the window, exactly when the window is non-empty
      or does not start at 0: an empty window at 0 makes the bound wrap round, and nothing is loaded. */
  lemma NeedsLoadIff(position: int, start: int, size: nat)
    requires 0 <= position <= INT64_MAX && 0 <= start <= INT32_MAX && size <= WINDOW
    ensures (NeedsLoad(position, start, size) <==> !(start <= position < start + size)) <==> start + size >= 1
  {
  }

  /** Inside the directory the test asks for a window just when the position is outside the present one,
      but for an empty window at 0. */
  lemma WithinDirectory(position: int, start: int, size: nat, total: nat)
    requires 0 <= start <= INT32_MAX && total <= INT32_MAX && (size == 0 || size == Min(WINDOW, total - start))
    requires IsI64(position)
    ensures position >= 0 ==> ToU64(position) == position
    ensures 0 <= position < total ==>
              && ToI32(position) == position
              && (NeedsLoad(position, start, size) <==>
                    !(start <= position < start + size) && !(start == 0 && size == 0))
  {
  }

  // ---------- The plain list with a cursor ----------

  datatype Op = Read | Seek(pos: int) | Tell

  datatype Answer = Listed(e: Dirent) | End | BadPosition | At(pos: int) | Astray

  /** The answer of a list with a cursor, and where the cursor is afterwards. */
  function Cursor(dir: Listing, pos: int, op: Op): (Answer, int) {
    match op
    case Read =>
      if pos < 0 then (BadPosition, pos)
      else if pos >= |dir.entries| then (End, pos)
      else (Listed(DirentAt(dir, pos)), pos + 1)
    case Seek(p) => (At(p), p)
    case Tell => (At(pos), pos)
  }

  function CursorRun(dir: Listing, pos: int, ops: seq<Op>): seq<Answer>
    decreases |ops|
  {
    if ops == [] then []
    else
      var (answer, next) := Cursor(dir, pos, ops[0]);
      [answer] + CursorRun(dir, next, ops[1..])
  }

  function AllEntries(dir: Listing, n: nat): (r: seq<Dirent>)
    requires n <= |dir.entries|
    ensures |r| == n && forall i | 0 <= i < n :: r[i] == DirentAt(dir, i)
  {
    if n == 0 then [] else AllEntries(dir, n - 1) + [DirentAt(dir, n - 1)]
  }

  /** What is listed of a directory's entry. */
  lemma EntryIs(dir: Listing, i: nat)
    requires i < |dir.entries|
    ensures DirentAt(dir, i).off == i && DirentAt(dir, i).ino == dir.root + dir.entries[i].local
    ensures DirentAt(dir, i).name == (var t := dir.entries[i].name; if |t| <= 4096 then t else t[..4096])
  {
  }

  /** Where the cursor of a list of `size` entries is before call `i`. */
  function Before(size: nat, pos: int, ops: seq<Op>, i: nat): int
    requires i <= |ops|
  {
    if i == 0 then pos
    else
      var p := Before(size, pos, ops, i - 1);
      match ops[i - 1]
      case Read => if 0 <= p < size then p + 1 else p
      case Seek(q) => q
      case Tell => p
  }

  lemma {:induction false} BeforeNext(size: nat, pos: int, ops: seq<Op>, i: nat)
    requires 0 < i <= |ops|
    ensures Before(size, pos, ops, i) == Before(size, Before(size, pos, ops[..1], 1), ops[1..], i - 1)
    decreases i
  {
    if i > 1 {
      BeforeNext(size, pos, ops, i - 1);
    }
  }

  /** Every call is answered from where the cursor is then. */
  lemma {:induction false} CursorRunIs(dir: Listing, pos: int, ops: seq<Op>, i: nat)
    requires i < |ops|
    ensures |CursorRun(dir, pos, ops)| == |ops|
    ensures CursorRun(dir, pos, ops)[i] == Cursor(dir, Before(|dir.entries|, pos, ops, i), ops[i]).0
    decreases |ops|
  {
    hide DirentAt;
    var next := Cursor(dir, pos, ops[0]).1;
    if i == 0 {
      if ops[1..] != [] {
        CursorRunIs(dir, next, ops[1..], 0);
      }
    } else {
      CursorRunIs(dir, next, ops[1..], i - 1);
      BeforeNext(|dir.entries|, pos, ops, i);
      assert Before(|dir.entries|, pos, ops[..1], 1) == next by {
        assert Before(|dir.entries|, pos, ops[..1], 0) == pos;
      }
    }
  }

  /** So any run of calls is answered: past the end, before the beginning, or with the entry under the cursor. */
  lemma CursorRunAnswers(dir: Listing, pos: int, ops: seq<Op>)
    ensures |CursorRun(dir, pos, ops)| == |ops|
    ensures forall i | 0 <= i < |ops| ::
              var p, answer := Before(|dir.entries|, pos, ops, i), CursorRun(dir, pos, ops)[i];
              match ops[i]
              case Seek(q) => answer == At(q)
              case Tell => answer == At(p)
              case Read =>
                if p < 0 then answer == BadPosition
                else if p >= |dir.entries| then answer == End
                else
                  && answer.Listed? && answer.e.off == p && answer.e.ino == dir.root + dir.entries[p].local
                  && answer.e.name == (var t := dir.entries[p].name; if |t| <= 4096 then t else t[..4096])
  {
    hide DirentAt;
    if ops == [] {
    } else {
      CursorRunIs(dir, pos, ops, 0);
      hide CursorRun, Before;
      forall i | 0 <= i < |ops|
        ensures CursorRun(dir, pos, ops)[i] == Cursor(dir, Before(|dir.entries|, pos, ops, i), ops[i]).0
        ensures 0 <= Before(|dir.entries|, pos, ops, i) < |dir.entries| ==>
                  var p := Before(|dir.entries|, pos, ops, i);
                  && DirentAt(dir, p).off == p && DirentAt(dir, p).ino == dir.root + dir.entries[p].local
                  && DirentAt(dir, p).name == (var t := dir.entries[p].name; if |t| <= 4096 then t else t[..4096])
      {
        CursorRunIs(dir, pos, ops, i);
        var p := Before(|dir.entries|, pos, ops, i);
        if 0 <= p < |dir.entries| {
          EntryIs(dir, p);
        }
      }
    }
  }

  /** Reading and nothing else goes through the entries one by one. */
  lemma {:induction false} ReadingOn(size: nat, pos: nat, ops: seq<Op>, i: nat)
    requires i <= |ops| && forall j | 0 <= j < |ops| :: ops[j] == Read
    ensures Before(size, pos, ops, i) == if pos + i < size then pos + i else Max(pos, size)
    decreases i
  {
    if i == 0 {
    } else {
      ReadingOn(size, pos, ops, i - 1);
    }
  }

  /** Every entry read is the one under the cursor, and reading on from the beginning lists them all in order. */
  lemma ListedAnswers(dir: Listing, pos: int, ops: seq<Op>)
    ensures var answers := CursorRun(dir, pos, ops);
            && |answers| == |ops|
            && (forall i | 0 <= i < |ops| && answers[i].Listed? ::
                  var e := answers[i].e;
                  && e.off == Before(|dir.entries|, pos, ops, i) && 0 <= e.off < |dir.entries|
                  && e.ino == dir.root + dir.entries[e.off].local
                  && e.name == (var t := dir.entries[e.off].name; if |t| <= 4096 then t else t[..4096]))
            && (pos == 0 && (forall i | 0 <= i < |ops| :: ops[i] == Read) ==>
                  forall i | 0 <= i < |ops| ::
                    if i < |dir.entries| then answers[i].Listed? && answers[i].e.off == i else answers[i] == End)
  {
    hide CursorRun, Before;
    CursorRunAnswers(dir, pos, ops);
    if pos == 0 && forall j | 0 <= j < |ops| :: ops[j] == Read {
      AllRead(dir, ops);
    }
  }

  lemma AllRead(dir: Listing, ops: seq<Op>)
    requires forall j | 0 <= j < |ops| :: ops[j] == Read
    ensures |CursorRun(dir, 0, ops)| == |ops|
    ensures forall i | 0 <= i < |ops| ::
              var answer := CursorRun(dir, 0, ops)[i];
              if i < |dir.entries| then answer.Listed? && answer.e.off == i else answer == End
  {
    CursorRunAnswers(dir, 0, ops);
    hide CursorRun, Before;
    forall i | 0 <= i < |ops|
      ensures Before(|dir.entries|, 0, ops, i) == if i < |dir.entries| then i else |dir.entries|
    {
      ReadingOn(|dir.entries|, 0, ops, i);
    }
  }

  // ---------- The window ----------

  /** `inode_readdir`: copy the entries from `start` on into the window; past the end there are none. */
  method FillWindow(dir: Listing, cache: array<Dirent>, start: int, bufferSize: nat) returns (size: nat, dirSize: nat)
    requires 0 <= start <= INT32_MAX && |dir.entries| <= INT32_MAX && bufferSize <= cache.Length
    modifies cache
    ensures dirSize == |dir.entries| && size == Max(0, Min(bufferSize, dirSize - start))
    ensures forall i | 0 <= i < size :: cache[i] == DirentAt(dir, start + i)
    ensures forall i | 0 <= i < size ::
              && cache[i].off == start + i && cache[i].ino == dir.root + dir.entries[start + i].local
              && cache[i].name == (var t := dir.entries[start + i].name; if |t| <= 4096 then t else t[..4096])
    ensures forall i | size <= i < cache.Length :: cache[i] == old(cache[i])
  {
    hide DirentAt;
    dirSize := |dir.entries|;
    size := 0;
    while ToU64(start + size) < dirSize && size < bufferSize
      invariant size <= bufferSize && (size == 0 || start + size <= dirSize)
      invariant forall i | 0 <= i < size :: cache[i] == DirentAt(dir, start + i)
      invariant forall i | size <= i < cache.Length :: cache[i] == old(cache[i])
    {
      cache[size] := DirentAt(dir, ToU64(start + size));
      size := size + 1;
    }
    forall i | 0 <= i < size
      ensures cache[i] == DirentAt(dir, start + i)
      ensures DirentAt(dir, start + i).name == (var t := dir.entries[start + i].name; if |t| <= 4096 then t else t[..4096])
      ensures DirentAt(dir, start + i).off == start + i && DirentAt(dir, start + i).ino == dir.root + dir.entries[start + i].local
    {
      EntryIs(dir, start + i);
    }
  }

  /** What `readdir` leaves in its entry pointer: nothing, an entry of the window, or an address past it. */
  datatype Slot = Nothing | Slot(e: Dirent) | PastWindow

  /** The result of `readdir` as an answer of a list with a cursor. */
  function AnswerOf(ret: int, slot: Slot): Answer {
    match slot
    case Slot(e) => Listed(e)
    case PastWindow => Astray
    case Nothing => if ret == IO_CONTINUE then End else BadPosition
  }

  /** `tebako_ds` */
  class Stream {
    const vfd: int
    const cache: array<Dirent>
    var dirSize: nat
    var position: int
    var cacheStart: int
    var cacheSize: nat

    /** What the last successful load listed, and the number of such loads so far. */
    ghost var dir: Listing
    ghost var loads: nat

    constructor (vfd: int)
      ensures Valid() && this.vfd == vfd && fresh(cache)
      ensures position == -1 && cacheStart == 0 && cacheSize == 0 && loads == 0
    {
      this.vfd := vfd;
      cache := new Dirent[WINDOW](_ => Dirent(0, 0, ""));
      dirSize, position, cacheStart, cacheSize, loads := 0, -1, 0, 0, 0;
      dir := Listing(0, []);
    }

    /** The buffer holds a run of the directory's entries, as many as fit or are left, and the window is
        that run or, after a failed load, empty. */
    ghost predicate Valid()
      reads this, cache
    {
      && cache.Length == WINDOW
      && dirSize == |dir.entries| <= INT32_MAX
      && 0 <= cacheStart <= INT32_MAX
      && (cacheSize == 0 || cacheSize == Min(WINDOW, dirSize - cacheStart))
      && (forall i | 0 <= i < Min(WINDOW, dirSize - cacheStart) :: cache[i] == DirentAt(dir, cacheStart + i))
      && IsI64(position)
    }

    /** The window invariant: the window is that run; it is not empty if the directory is not. */
    ghost predicate Holds()
      reads this, cache
      ensures Holds() ==> Valid()
    {
      Valid() && (cacheStart < dirSize || cacheStart == 0) && cacheSize == Min(WINDOW, dirSize - cacheStart)
    }

    /** An empty window at 0: the state in which no position asks for a load. */
    predicate Emptied()
      reads this
    {
      cacheStart == 0 && cacheSize == 0
    }

    /** The position is in the directory, and its entry in the window. */
    predicate Hits()
      reads this
    {
      0 <= position < dirSize && cacheStart <= position < cacheStart + cacheSize
    }

    /** `load_cache` */
    method LoadCache(src: Source, newStart: int, setPos: bool) returns (ret: int)
      requires Valid() && 0 <= newStart <= INT32_MAX
      requires src.Entries? ==> |src.dir.entries| <= INT32_MAX
      modifies this, cache
      ensures Valid()
      ensures !src.Entries? ==>
                && ret == (if src.NoDescriptor? then INVALID_FD else IO_ERROR)
                && position == -1 && cacheSize == 0
                && dir == old(dir) && dirSize == old(dirSize) && cacheStart == old(cacheStart) && loads == old(loads)
      ensures src.Entries? ==>
                && ret == IO_CONTINUE && dir == src.dir && cacheStart == newStart && loads == old(loads) + 1
                && dirSize == |src.dir.entries|
                && cacheSize == Max(0, Min(WINDOW, |src.dir.entries| - newStart))
                && position == (if setPos then newStart else old(position))
                && (newStart < |src.dir.entries| || newStart == 0 ==> Holds())
      ensures forall i | Max(0, Min(WINDOW, |dir.entries| - cacheStart)) <= i < WINDOW :: cache[i] == old(cache[i])
    {
      hide DirentAt;
      match src {
        case NoDescriptor =>
          position, cacheSize := -1, 0;
          ret := INVALID_FD;
        case NoDirectory =>
          position, cacheSize := -1, 0;
          ret := IO_ERROR;
        case Entries(list) =>
          var size, total := FillWindow(list, cache, newStart, WINDOW);
          cacheSize, dirSize := size, total;
          if setPos {
            position := newStart;
          }
          cacheStart := newStart;
          dir, loads := list, loads + 1;
          ret := IO_CONTINUE;
      }
    }

    /** `readdir`, in every state and whatever the descriptor leads to by now: an entry in the window is
        taken from there; an empty window at 0 is read as if it were full; otherwise a window is loaded.
        While the descriptor leads to the directory listed, the answer is that of the plain list with a
        cursor, if and only if the window is not an empty one at 0 while the position is beyond its length. */
    method ReadDir(src: Source) returns (ret: int, slot: Slot)
      requires Valid() && (src.Entries? ==> |src.dir.entries| <= INT32_MAX)
      modifies this, cache
      ensures Valid()
      ensures !(0 <= old(position) < old(dirSize)) ==>
                && AnswerOf(ret, slot) == Cursor(old(dir), old(position), Read).0
                && unchanged(this) && cache[..] == old(cache[..])
      ensures 0 <= old(position) < old(dirSize) && (old(Hits()) || old(Emptied())) ==>
                && ret == IO_CONTINUE
                && slot == (if old(position) - old(cacheStart) < WINDOW
                            then Slot(DirentAt(old(dir), old(position))) else PastWindow)
                && position == old(position) + 1
                && dir == old(dir) && dirSize == old(dirSize) && cacheStart == old(cacheStart)
                && cacheSize == old(cacheSize) && loads == old(loads)
      ensures 0 <= old(position) < old(dirSize) && !old(Hits()) && !old(Emptied()) ==>
                match src
                case Entries(list) =>
                  && ret == IO_CONTINUE && dir == list && cacheStart == old(position) && loads == old(loads) + 1
                  && cacheSize == Max(0, Min(WINDOW, |list.entries| - old(position)))
                  && position == old(position) + 1
                  && slot == Slot(if old(position) < |list.entries| then DirentAt(list, old(position)) else old(cache[0]))
                case _ =>
                  && ret == (if src.NoDescriptor? then INVALID_FD else IO_ERROR) && slot == Nothing
                  && position == -1 && cacheSize == 0
                  && dir == old(dir) && dirSize == old(dirSize) && cacheStart == old(cacheStart) && loads == old(loads)
      ensures old(position) < 0 ==> ret == IO_ERROR && slot == Nothing
      ensures old(position) >= old(dirSize) ==> ret == IO_CONTINUE && slot == Nothing
      ensures slot.Slot? && old(position) < |dir.entries| ==>
                && slot.e.off == old(position) && slot.e.ino == dir.root + dir.entries[old(position)].local
                && slot.e.name == (var t := dir.entries[old(position)].name; if |t| <= 4096 then t else t[..4096])
      ensures src == Entries(old(dir)) ==>
                && dir == old(dir) && (old(Holds()) ==> Holds())
                && ((AnswerOf(ret, slot), position) == Cursor(old(dir), old(position), Read) <==>
                      !(old(Emptied()) && WINDOW <= old(position) < old(dirSize)))
    {
      hide DirentAt, NeedsLoad, ToU64, ToI32;
      WithinDirectory(position, cacheStart, cacheSize, dirSize);
      ghost var p := position;
      ret, slot := IO_CONTINUE, Nothing;
      if position < 0 {
        ret := IO_ERROR;
      } else if ToU64(position) >= dirSize {
        // past the end
      } else if NeedsLoad(position, cacheStart, cacheSize) {
        ret := LoadCache(src, ToI32(position), false);
        if ret == IO_CONTINUE {
          slot := Slot(cache[position - cacheStart]);
          position := position + 1;
        }
      } else {
        slot := if position - cacheStart < WINDOW then Slot(cache[position - cacheStart]) else PastWindow;
        position := position + 1;
      }
      if slot.Slot? && p < |dir.entries| {
        EntryIs(dir, p);
      }
    }

    method SeekDir(pos: int)
      requires Valid() && IsI64(pos)
      modifies this`position
      ensures Valid() && position == pos && (old(Holds()) ==> Holds())
    {
      position := pos;
    }

    /** One call. */
    method Do(src: Source, op: Op) returns (answer: Answer)
      requires Holds() && src == Entries(dir) && (op.Seek? ==> IsI64(op.pos))
      modifies this, cache
      ensures Holds() && dir == old(dir) && (answer, position) == Cursor(old(dir), old(position), op)
    {
      match op {
        case Read =>
          var ret, slot := ReadDir(src);
          answer := AnswerOf(ret, slot);
        case Seek(pos) =>
          SeekDir(pos);
          answer := At(pos);
        case Tell =>
          answer := At(position);
      }
    }

    /** Any interleaving of calls answers like the plain list with a cursor. */
    method Run(src: Source, ops: seq<Op>) returns (answers: seq<Answer>)
      requires Holds() && src == Entries(dir)
      requires forall i | 0 <= i < |ops| && ops[i].Seek? :: IsI64(ops[i].pos)
      modifies this, cache
      ensures Holds() && dir == old(dir) && answers == CursorRun(old(dir), old(position), ops) && |answers| == |ops|
      ensures forall i | 0 <= i < |ops| && answers[i].Listed? ::
                var e := answers[i].e;
                && e.off == Before(|dir.entries|, old(position), ops, i) && 0 <= e.off < |dir.entries|
                && e.ino == dir.root + dir.entries[e.off].local
                && e.name == (var t := dir.entries[e.off].name; if |t| <= 4096 then t else t[..4096])
      ensures old(position) == 0 && (forall i | 0 <= i < |ops| :: ops[i] == Read) ==>
                forall i | 0 <= i < |ops| ::
                  if i < |dir.entries| then answers[i].Listed? && answers[i].e.off == i else answers[i] == End
    {
      hide Cursor, Holds, Before, DirentAt;
      answers := [];
      var i := 0;
      assert ops[0..] == ops;
      while i < |ops|
        invariant 0 <= i <= |ops| && Holds() && dir == old(dir)
        invariant CursorRun(dir, old(position), ops) == answers + CursorRun(dir, position, ops[i..])
      {
        assert ops[i..][0] == ops[i] && ops[i..][1..] == ops[i + 1..];
        var answer := Do(src, ops[i]);
        answers := answers + [answer];
        i := i + 1;
      }
      assert ops[i..] == [];
      assert answers == CursorRun(dir, old(position), ops);
      hide CursorRun, Before, Valid;
      ListedAnswers(dir, old(position), ops);
    }

    /** The state in which `readdir` goes astray is reached: in a directory of more entries than the first
        window holds, the descriptor is closed under the stream, a load fails, and a position beyond the
        window's length is sought. */
    method GoAstray(pos: int, src: Source) returns (ret: int, slot: Slot)
      requires Holds() && cacheStart == 0 && WINDOW <= pos < dirSize
      requires src.Entries? ==> |src.dir.entries| <= INT32_MAX
      modifies this, cache
      ensures ret == IO_CONTINUE && slot == PastWindow
    {
      SeekDir(WINDOW);
      ret, slot := ReadDir(NoDescriptor);
      SeekDir(pos);
      ret, slot := ReadDir(src);
    }
  }
}
