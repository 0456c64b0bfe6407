/** Global inode numbers: the index of an image in the top bits, the image's own inode number below. */
module Inodes {
  import opened Bits

  /** The word size of an inode number and how many of its top bits hold the image index. */
  datatype Layout = Layout(inoBits: nat, fsBits: nat)

  type ValidLayout = l: Layout | l.fsBits <= l.inoBits witness Layout(0, 0)

  /** The constants that the program is compiled with: a 32-bit inode, one bit for the index. */
  const COMPILED: ValidLayout := Layout(32, 1)

  /** The largest index that `insert_auto` hands out. */
  const LAST_INDEX: nat := 7

  function LocalBits(l: ValidLayout): nat {
    l.inoBits - l.fsBits
  }

  function InoMask(l: ValidLayout): nat {
    Shl(1, LocalBits(l)) - 1
  }

  function FsMask(l: ValidLayout): nat {
    Shl(1, l.fsBits) - 1
  }

  /** `getFsIndex` */
  function FsIndex(l: ValidLayout, ino: nat): nat {
    And(Shr(ino, LocalBits(l)), FsMask(l))
  }

  /** `getFsIno` */
  function FsIno(l: ValidLayout, ino: nat): nat {
    And(ino, InoMask(l))
  }

  /** `fsInoFromFsAndIno`, in a word wide enough not to lose the top bits. */
  function FsInoFromFsAndIno(l: ValidLayout, index: nat, ino: nat): nat {
    Or(Shl(index, LocalBits(l)), FsIno(l, ino))
  }

  /** What is left of a number stored in an inode-sized word. */
  function Stored(l: ValidLayout, x: nat): nat {
    Low(x, l.inoBits)
  }

  /** The root inode that an image gets with its index. */
  function RootInode(l: ValidLayout, index: nat): nat {
    Stored(l, FsInoFromFsAndIno(l, index, 0))
  }

  predicate IndexFits(l: ValidLayout, index: nat) {
    index < Pow2(l.fsBits)
  }

  predicate LocalFits(l: ValidLayout, ino: nat) {
    ino < Pow2(LocalBits(l))
  }

  lemma FsIndexIs(l: ValidLayout, ino: nat)
    ensures FsIndex(l, ino) == Low(Shr(ino, LocalBits(l)), l.fsBits)
    ensures IndexFits(l, FsIndex(l, ino))
  {
    ShlOne(l.fsBits);
    AndMask(Shr(ino, LocalBits(l)), l.fsBits);
    PutTogether(Shr(ino, LocalBits(l)), l.fsBits);
  }

  lemma FsInoIs(l: ValidLayout, ino: nat)
    ensures FsIno(l, ino) == Low(ino, LocalBits(l)) < Pow2(LocalBits(l))
  {
    ShlOne(LocalBits(l));
    AndMask(ino, LocalBits(l));
    PutTogether(ino, LocalBits(l));
  }

  /** The OR in the encoder is an addition, whatever the index and the inode. */
  lemma EncodeIsAddition(l: ValidLayout, index: nat, ino: nat)
    ensures FsInoFromFsAndIno(l, index, ino) == Shl(index, LocalBits(l)) + FsIno(l, ino)
    ensures LocalFits(l, ino) ==> FsIno(l, ino) == ino
  {
    FsInoIs(l, ino);
    OrDisjoint(index, FsIno(l, ino), LocalBits(l));
    if LocalFits(l, ino) {
      LowSmall(ino, LocalBits(l));
    }
  }

  /** Decoding inverts encoding, and the result fits an inode-sized word. */
  lemma DecodeEncode(l: ValidLayout, index: nat, ino: nat)
    requires IndexFits(l, index) && LocalFits(l, ino)
    ensures FsInoFromFsAndIno(l, index, ino) < Pow2(l.inoBits)
    ensures FsIndex(l, FsInoFromFsAndIno(l, index, ino)) == index
    ensures FsIno(l, FsInoFromFsAndIno(l, index, ino)) == ino
  {
    var g := FsInoFromFsAndIno(l, index, ino);
    EncodeIsAddition(l, index, ino);
    TakeApart(index, ino, LocalBits(l));
    FsIndexIs(l, g);
    FsInoIs(l, g);
    LowSmall(index, l.fsBits);
    Bound(index, l.fsBits, ino, LocalBits(l));
  }

  /** Encoding inverts decoding on every inode-sized word. */
  lemma EncodeDecode(l: ValidLayout, g: nat)
    requires g < Pow2(l.inoBits)
    ensures FsInoFromFsAndIno(l, FsIndex(l, g), FsIno(l, g)) == g
  {
    var q, r := Shr(g, LocalBits(l)), Low(g, LocalBits(l));
    PutTogether(g, LocalBits(l));
    Bound(q, l.fsBits, r, LocalBits(l));
    LowSmall(q, l.fsBits);
    FsIndexIs(l, g);
    FsInoIs(l, g);
    EncodeIsAddition(l, q, r);
  }

  /** The sum that the walk forms from an image's root inode and a local inode is the encoded pair. */
  lemma WalkSumIsEncoded(l: ValidLayout, index: nat, ino: nat)
    requires IndexFits(l, index) && LocalFits(l, ino)
    ensures RootInode(l, index) + ino == FsInoFromFsAndIno(l, index, ino)
  {
    hide FsIndex, FsInoFromFsAndIno, FsIno;
    DecodeEncode(l, index, 0);
    EncodeIsAddition(l, index, 0);
    EncodeIsAddition(l, index, ino);
    LowSmall(FsInoFromFsAndIno(l, index, 0), l.inoBits);
  }

  /** Two images never share an inode number when their indices fit. */
  lemma DisjointRanges(l: ValidLayout, i: nat, j: nat, a: nat, b: nat)
    requires IndexFits(l, i) && IndexFits(l, j) && LocalFits(l, a) && LocalFits(l, b)
    requires RootInode(l, i) + a == RootInode(l, j) + b
    ensures i == j && a == b
  {
    WalkSumIsEncoded(l, i, a);
    WalkSumIsEncoded(l, j, b);
    DecodeEncode(l, i, a);
    DecodeEncode(l, j, b);
  }

  /** The calls on an image's root inode reach that image exactly when its index fits. */
  lemma RootRoutesIff(l: ValidLayout, index: nat)
    ensures FsIndex(l, RootInode(l, index)) == index <==> IndexFits(l, index)
  {
    FsIndexIs(l, RootInode(l, index));
    if IndexFits(l, index) {
      WalkSumIsEncoded(l, index, 0);
      DecodeEncode(l, index, 0);
    }
  }

  /** Two root inodes are told apart exactly by the part of the index that fits the top bits. */
  lemma RootsCollideIff(l: ValidLayout, i: nat, j: nat)
    ensures RootInode(l, i) == RootInode(l, j) <==> Low(i, l.fsBits) == Low(j, l.fsBits)
  {
    RootIs(l, i);
    RootIs(l, j);
    ShlInjective(Low(i, l.fsBits), Low(j, l.fsBits), LocalBits(l));
  }

  lemma RootIs(l: ValidLayout, index: nat)
    ensures RootInode(l, index) == Shl(Low(index, l.fsBits), LocalBits(l))
  {
    EncodeIsAddition(l, index, 0);
    LowShl(index, LocalBits(l), l.inoBits);
  }

  lemma Halve(y: nat)
    ensures (2 * y) % 2 == 0 && (2 * y) / 2 == y
  {
  }

  lemma LowDouble(y: nat, m: nat)
    requires m > 0
    ensures Low(2 * y, m) == 2 * Low(y, m - 1)
  {
    Halve(y);
  }

  lemma {:induction false} LowShl(x: nat, n: nat, m: nat)
    requires n <= m
    ensures Low(Shl(x, n), m) == Shl(Low(x, m - n), n)
  {
    hide Low;
    if n == 0 {
    } else {
      LowShl(x, n - 1, m - 1);
      LowDouble(Shl(x, n - 1), m);
    }
  }

  lemma {:induction false} ShlInjective(x: nat, y: nat, n: nat)
    ensures Shl(x, n) == Shl(y, n) <==> x == y
  {
    if n == 0 {
    } else {
      ShlInjective(x, y, n - 1);
    }
  }

  lemma TwoToThe31()
    ensures Pow2(31) == 0x8000_0000
  {
    assert Pow2(0) == 1;
    assert Pow2(4) == 0x10;
    assert Pow2(8) == 0x100;
    assert Pow2(12) == 0x1000;
    assert Pow2(16) == 0x1_0000;
    assert Pow2(20) == 0x10_0000;
    assert Pow2(24) == 0x100_0000;
    assert Pow2(28) == 0x1000_0000;
  }

  lemma CompiledRoot(index: nat)
    ensures RootInode(COMPILED, index) == (index % 2) * 0x8000_0000
  {
    hide RootInode, Shl;
    RootIs(COMPILED, index);
    assert Low(index, 1) == index % 2 by { assert Low(index / 2, 0) == 0; }
    ShlOne(31);
    TwoToThe31();
  }

  /** With the compiled-in layout only indices 0 and 1 fit: of the seven images that can be mounted
      beside the root, the second one already gets the root image's own root inode. */
  lemma CompiledLayoutFits(index: nat)
    ensures IndexFits(COMPILED, index) <==> index <= 1
    ensures RootInode(COMPILED, 2) == RootInode(COMPILED, 0)
    ensures RootInode(COMPILED, index) == (index % 2) * 0x8000_0000
  {
    CompiledRoot(index);
    assert Pow2(1) == 2 by { assert Pow2(0) == 1; }
    assert Low(2, 1) == 0 == Low(0, 1) by { assert Low(1, 0) == 0; }
    RootsCollideIff(COMPILED, 2, 0);
  }
}
