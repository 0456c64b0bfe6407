/** The package descriptor at the front of an application image: its binary format, written and read. */
module PackageDescriptor {
  import opened Words
  import opened Wrappers

  type Word = w: int | 0 <= w < 0x1_0000

  const WORDS: nat := 0x1_0000

  /** "TAMATEBAKO" */
  const SIGNATURE: seq<Byte> := [0x54, 0x41, 0x4D, 0x41, 0x54, 0x45, 0x42, 0x41, 0x4B, 0x4F]

  datatype Version = Version(major: Word, minor: Word, patch: Word)

  datatype Descriptor = Descriptor(
    ruby: Version, tebako: Version, mountPoint: seq<Byte>, entryPoint: seq<Byte>, cwd: Option<seq<Byte>>)

  datatype Error = InvalidSignature | TooShort

  /** What is read off the front of a buffer, and what is left of it. */
  datatype Parse<+T> = Failed(error: Error) | Got(value: T, rest: seq<Byte>) {
    predicate IsFailure() {
      Failed?
    }
    function PropagateFailure<U>(): Parse<U>
      requires Failed?
    {
      Failed(error)
    }
    function Extract(): (T, seq<Byte>)
      requires Got?
    {
      (value, rest)
    }
  }

  // ---------- The format ----------

  function EncodeWord(w: Word): seq<Byte> {
    [w % 0x100, w / 0x100]
  }

  function EncodeVersion(v: Version): seq<Byte> {
    EncodeWord(v.major) + EncodeWord(v.minor) + EncodeWord(v.patch)
  }

  /** What a 16-bit length keeps of a string. */
  function Cut(s: seq<Byte>): (r: seq<Byte>)
    ensures |r| < WORDS
    ensures |s| < WORDS ==> r == s
  {
    s[..|s| % WORDS]
  }

  function EncodeString(s: seq<Byte>): seq<Byte> {
    EncodeWord(|Cut(s)|) + Cut(s)
  }

  function EncodeCwd(flag: Byte, cwd: Option<seq<Byte>>): seq<Byte> {
    [flag] + (if cwd.Some? then EncodeString(cwd.value) else [])
  }

  /** The encoding with a given presence flag. */
  function EncodeWith(d: Descriptor, flag: Byte): seq<Byte> {
    SIGNATURE + (EncodeVersion(d.ruby) + (EncodeVersion(d.tebako) +
      (EncodeString(d.mountPoint) + (EncodeString(d.entryPoint) + EncodeCwd(flag, d.cwd)))))
  }

  function Flag(d: Descriptor): Byte {
    if d.cwd.Some? then 1 else 0
  }

  function Encode(d: Descriptor): seq<Byte> {
    EncodeWith(d, Flag(d))
  }

  /** The descriptor that the encoding stands for. */
  function Kept(d: Descriptor): Descriptor {
    d.(mountPoint := Cut(d.mountPoint), entryPoint := Cut(d.entryPoint),
       cwd := if d.cwd.Some? then Some(Cut(d.cwd.value)) else None)
  }

  /** No string is too long for its 16-bit length. */
  predicate Fits(d: Descriptor) {
    |d.mountPoint| < WORDS && |d.entryPoint| < WORDS && (d.cwd.Some? ==> |d.cwd.value| < WORDS)
  }

  // ---------- Reading ----------

  function TakeBytes(b: seq<Byte>, n: nat): Parse<seq<Byte>> {
    if n > |b| then Failed(TooShort) else Got(b[..n], b[n..])
  }

  function TakeWord(b: seq<Byte>): Parse<Word> {
    if 2 > |b| then Failed(TooShort) else Got((b[0] as int) + 0x100 * (b[1] as int), b[2..])
  }

  function TakeVersion(b: seq<Byte>): Parse<Version> {
    var (major, b) :- TakeWord(b);
    var (minor, b) :- TakeWord(b);
    var (patch, b) :- TakeWord(b);
    Got(Version(major, minor, patch), b)
  }

  function TakeString(b: seq<Byte>): Parse<seq<Byte>> {
    var (n, b) :- TakeWord(b);
    TakeBytes(b, n)
  }

  /** The flag counts as set unless it is zero. */
  function TakeCwd(b: seq<Byte>): Parse<Option<seq<Byte>>> {
    if b == [] then Failed(TooShort)
    else if b[0] == 0 then Got(None, b[1..])
    else
      var (cwd, b) :- TakeString(b[1..]);
      Got(Some(cwd), b)
  }

  function TakeSignature(b: seq<Byte>): Parse<()> {
    if SIGNATURE <= b then Got((), b[|SIGNATURE|..]) else Failed(InvalidSignature)
  }

  function Decode(b: seq<Byte>): Parse<Descriptor> {
    var (_, b) :- TakeSignature(b);
    var (ruby, b) :- TakeVersion(b);
    var (tebako, b) :- TakeVersion(b);
    var (mountPoint, b) :- TakeString(b);
    var (entryPoint, b) :- TakeString(b);
    var (cwd, b) :- TakeCwd(b);
    Got(Descriptor(ruby, tebako, mountPoint, entryPoint, cwd), b)
  }

  // ---------- Each piece is read back, and only from what writes it ----------

  lemma WordBack(w: Word, tail: seq<Byte>)
    ensures TakeWord(EncodeWord(w) + tail) == Got(w, tail)
  {
    assert (EncodeWord(w) + tail)[2..] == tail;
  }

  lemma VersionBack(v: Version, tail: seq<Byte>)
    ensures TakeVersion(EncodeVersion(v) + tail) == Got(v, tail)
  {
    var p, m := EncodeWord(v.patch) + tail, EncodeWord(v.minor);
    assert EncodeVersion(v) + tail == EncodeWord(v.major) + (m + p);
    WordBack(v.major, m + p);
    WordBack(v.minor, p);
    WordBack(v.patch, tail);
  }

  lemma StringBack(s: seq<Byte>, tail: seq<Byte>)
    ensures TakeString(EncodeString(s) + tail) == Got(Cut(s), tail)
  {
    assert EncodeString(s) + tail == EncodeWord(|Cut(s)|) + (Cut(s) + tail);
    WordBack(|Cut(s)|, Cut(s) + tail);
    assert (Cut(s) + tail)[..|Cut(s)|] == Cut(s) && (Cut(s) + tail)[|Cut(s)|..] == tail;
  }

  lemma CwdBack(cwd: Option<seq<Byte>>, tail: seq<Byte>)
    ensures TakeCwd(EncodeCwd(if cwd.Some? then 1 else 0, cwd) + tail) ==
            Got(if cwd.Some? then Some(Cut(cwd.value)) else None, tail)
  {
    var b := EncodeCwd(if cwd.Some? then 1 else 0, cwd) + tail;
    if cwd.Some? {
      assert b[1..] == EncodeString(cwd.value) + tail;
      StringBack(cwd.value, tail);
    } else {
      assert b[1..] == tail;
    }
  }

  /** Reading what was written, whatever follows it, gives the descriptor with its strings cut to 16-bit
      lengths, and leaves what follows. */
  lemma RoundTrip(d: Descriptor, tail: seq<Byte>)
    ensures Decode(Encode(d) + tail) == Got(Kept(d), tail)
  {
    hide EncodeVersion, EncodeString, EncodeCwd, TakeVersion, TakeString, TakeCwd, Cut;
    var e := EncodeCwd(Flag(d), d.cwd) + tail;
    var n := EncodeString(d.entryPoint) + e;
    var m := EncodeString(d.mountPoint) + n;
    var t := EncodeVersion(d.tebako) + m;
    var r := EncodeVersion(d.ruby) + t;
    assert Encode(d) + tail == SIGNATURE + r by {
      Regroup(SIGNATURE, EncodeVersion(d.ruby), EncodeVersion(d.tebako), EncodeString(d.mountPoint),
              EncodeString(d.entryPoint), EncodeCwd(Flag(d), d.cwd), tail);
    }
    assert (SIGNATURE + r)[|SIGNATURE|..] == r;
    VersionBack(d.ruby, t);
    VersionBack(d.tebako, m);
    StringBack(d.mountPoint, n);
    StringBack(d.entryPoint, e);
    CwdBack(d.cwd, tail);
  }

  lemma Regroup(a: seq<Byte>, b: seq<Byte>, c: seq<Byte>, d: seq<Byte>, e: seq<Byte>, f: seq<Byte>, tail: seq<Byte>)
    ensures a + (b + (c + (d + (e + f)))) + tail == a + (b + (c + (d + (e + (f + tail)))))
  {
    assert e + f + tail == e + (f + tail);
    assert d + (e + f) + tail == d + (e + f + tail);
    assert c + (d + (e + f)) + tail == c + (d + (e + f) + tail);
    assert b + (c + (d + (e + f))) + tail == b + (c + (d + (e + f)) + tail);
  }

  /** The round trip is exact just when every string fits its 16-bit length. */
  lemma RoundTripExactIff(d: Descriptor, tail: seq<Byte>)
    ensures Decode(Encode(d) + tail) == Got(d, tail) <==> Fits(d)
  {
    RoundTrip(d, tail);
  }

  lemma WordFront(b: seq<Byte>)
    requires TakeWord(b).Got?
    ensures b == EncodeWord(TakeWord(b).value) + TakeWord(b).rest
  {
  }

  lemma VersionFront(b: seq<Byte>)
    requires TakeVersion(b).Got?
    ensures b == EncodeVersion(TakeVersion(b).value) + TakeVersion(b).rest
  {
    hide TakeWord, EncodeWord;
    var b1 := TakeWord(b).rest;
    var b2 := TakeWord(b1).rest;
    WordFront(b);
    WordFront(b1);
    WordFront(b2);
    var v, rest := TakeVersion(b).value, TakeVersion(b).rest;
    assert b == EncodeWord(v.major) + (EncodeWord(v.minor) + (EncodeWord(v.patch) + rest));
  }

  lemma StringFront(b: seq<Byte>)
    requires TakeString(b).Got?
    ensures |TakeString(b).value| < WORDS
    ensures b == EncodeString(TakeString(b).value) + TakeString(b).rest
  {
    WordFront(b);
    var s := TakeString(b).value;
    assert Cut(s) == s;
    assert TakeWord(b).rest == s + TakeString(b).rest;
  }

  lemma CwdFront(b: seq<Byte>)
    requires TakeCwd(b).Got?
    ensures b != [] && (b[0] == 0 <==> TakeCwd(b).value.None?)
    ensures TakeCwd(b).value.Some? ==> |TakeCwd(b).value.value| < WORDS
    ensures b == EncodeCwd(b[0], TakeCwd(b).value) + TakeCwd(b).rest
  {
    hide TakeString, EncodeString;
    if b[0] == 0 {
      assert b == [b[0]] + b[1..];
    } else {
      StringFront(b[1..]);
      assert b == [b[0]] + b[1..];
    }
  }

  /** Whatever is read successfully was written as the encoding of what was read, but for a presence flag
      that may be any non-zero byte. */
  lemma Canonical(b: seq<Byte>) returns (flag: Byte)
    requires Decode(b).Got?
    ensures var d := Decode(b).value;
            && Fits(d) && (flag == 0 <==> d.cwd.None?)
            && b == EncodeWith(d, flag) + Decode(b).rest
            && (flag <= 1 ==> b == Encode(d) + Decode(b).rest)
  {
    hide EncodeVersion, EncodeString, EncodeCwd, TakeVersion, TakeString, TakeCwd, Cut;
    var b1 := TakeSignature(b).rest;
    var b2 := TakeVersion(b1).rest;
    var b3 := TakeVersion(b2).rest;
    var b4 := TakeString(b3).rest;
    var b5 := TakeString(b4).rest;
    var d, tail := Decode(b).value, Decode(b).rest;
    VersionFront(b1);
    VersionFront(b2);
    StringFront(b3);
    StringFront(b4);
    CwdFront(b5);
    flag := b5[0];
    assert b == SIGNATURE + b1;
    Regroup(SIGNATURE, EncodeVersion(d.ruby), EncodeVersion(d.tebako), EncodeString(d.mountPoint),
            EncodeString(d.entryPoint), EncodeCwd(flag, d.cwd), tail);
  }

  lemma StringMore(b: seq<Byte>, more: seq<Byte>)
    requires TakeString(b).Got?
    ensures TakeString(b + more) == Got(TakeString(b).value, TakeString(b).rest + more)
  {
    StringFront(b);
    var s, rest := TakeString(b).value, TakeString(b).rest;
    assert b + more == EncodeString(s) + (rest + more);
    StringBack(s, rest + more);
  }

  lemma CwdMore(b: seq<Byte>, more: seq<Byte>)
    requires TakeCwd(b).Got?
    ensures TakeCwd(b + more) == Got(TakeCwd(b).value, TakeCwd(b).rest + more)
  {
    assert (b + more)[1..] == b[1..] + more;
    if b[0] != 0 {
      StringMore(b[1..], more);
    }
  }

  lemma VersionMore(b: seq<Byte>, more: seq<Byte>)
    requires TakeVersion(b).Got?
    ensures TakeVersion(b + more) == Got(TakeVersion(b).value, TakeVersion(b).rest + more)
  {
    VersionFront(b);
    var v, rest := TakeVersion(b).value, TakeVersion(b).rest;
    assert b + more == EncodeVersion(v) + (rest + more);
    VersionBack(v, rest + more);
  }

  /** What follows a descriptor does not change how it is read. */
  lemma DecodeMore(b: seq<Byte>, more: seq<Byte>)
    requires Decode(b).Got?
    ensures Decode(b + more) == Got(Decode(b).value, Decode(b).rest + more)
  {
    hide TakeVersion, TakeString, TakeCwd;
    var b1 := TakeSignature(b).rest;
    var b2 := TakeVersion(b1).rest;
    var b3 := TakeVersion(b2).rest;
    var b4 := TakeString(b3).rest;
    var b5 := TakeString(b4).rest;
    assert (b + more)[|SIGNATURE|..] == b1 + more;
    VersionMore(b1, more);
    VersionMore(b2, more);
    StringMore(b3, more);
    StringMore(b4, more);
    CwdMore(b5, more);
  }

  /** An image cut short inside its descriptor is always rejected. */
  lemma StrictPrefixRejected(d: Descriptor, n: nat)
    requires n < |Encode(d)|
    ensures Decode(Encode(d)[..n]).Failed?
  {
    hide Decode, Encode;
    var e := Encode(d);
    if Decode(e[..n]).Got? {
      DecodeMore(e[..n], e[n..]);
      assert e[..n] + e[n..] == e == e + [];
      RoundTrip(d, []);
    }
  }

  /** One encoding begins another only if they encode the same. */
  lemma PrefixFree(d: Descriptor, e: Descriptor)
    requires Encode(d) <= Encode(e)
    ensures Kept(d) == Kept(e) && Encode(d) == Encode(e)
  {
    hide Decode, Encode, Kept;
    var n := |Encode(d)|;
    assert Encode(d) == Encode(e)[..n];
    RoundTrip(d, []);
    RoundTrip(e, []);
    assert Encode(d) + [] == Encode(d) && Encode(e) + [] == Encode(e);
    if n < |Encode(e)| {
      StrictPrefixRejected(e, n);
    }
    assert Encode(e)[..|Encode(e)|] == Encode(e);
  }

  /** The bytes of an encoding, spelled out. */
  lemma LayoutIs(d: Descriptor)
    ensures var m, e := |d.mountPoint| % 65536, |d.entryPoint| % 65536;
            Encode(d) == [0x54, 0x41, 0x4D, 0x41, 0x54, 0x45, 0x42, 0x41, 0x4B, 0x4F] +
              [d.ruby.major % 256, d.ruby.major / 256, d.ruby.minor % 256, d.ruby.minor / 256, d.ruby.patch % 256, d.ruby.patch / 256] +
              [d.tebako.major % 256, d.tebako.major / 256, d.tebako.minor % 256, d.tebako.minor / 256, d.tebako.patch % 256, d.tebako.patch / 256] +
              ([m % 256, m / 256] + d.mountPoint[..m]) + ([e % 256, e / 256] + d.entryPoint[..e]) +
              match d.cwd
              case None => [0]
              case Some(cwd) => (var c := |cwd| % 65536; [1] + ([c % 256, c / 256] + cwd[..c]))
  {
    VersionLayout(d.ruby);
    VersionLayout(d.tebako);
    StringLayout(d.mountPoint);
    StringLayout(d.entryPoint);
    CwdLayout(d);
    FromLeft(SIGNATURE, EncodeVersion(d.ruby), EncodeVersion(d.tebako), EncodeString(d.mountPoint),
             EncodeString(d.entryPoint), EncodeCwd(Flag(d), d.cwd));
    hide EncodeVersion, EncodeString, EncodeCwd;
  }

  lemma VersionLayout(v: Version)
    ensures EncodeVersion(v) ==
            [v.major % 256, v.major / 256, v.minor % 256, v.minor / 256, v.patch % 256, v.patch / 256]
  {
  }

  lemma StringLayout(s: seq<Byte>)
    ensures var n := |s| % 65536; EncodeString(s) == [n % 256, n / 256] + s[..n]
  {
  }

  lemma CwdLayout(d: Descriptor)
    ensures EncodeCwd(Flag(d), d.cwd) ==
            match d.cwd
            case None => [0]
            case Some(cwd) => (var c := |cwd| % 65536; [1] + ([c % 256, c / 256] + cwd[..c]))
  {
    hide EncodeString;
    match d.cwd {
      case None =>
        assert [0] + [] == [0];
      case Some(cwd) =>
        StringLayout(cwd);
    }
  }

  /** A buffer is rejected for its signature if and only if it does not begin with it; any other is too short. */
  lemma RejectedFor(b: seq<Byte>)
    requires Decode(b).Failed?
    ensures Decode(b).error == InvalidSignature <==>
            !([0x54, 0x41, 0x4D, 0x41, 0x54, 0x45, 0x42, 0x41, 0x4B, 0x4F] <= b)
  {
  }

  // ---------- The implementations ----------

  /** `read_from_buffer` */
  method ReadFromBuffer(buffer: seq<Byte>, offset: nat, size: nat) returns (r: Parse<seq<Byte>>, offset': nat)
    requires offset <= |buffer|
    ensures offset <= offset' <= |buffer|
    ensures r == TakeBytes(buffer[offset..], size)
    ensures r.Got? ==> r.rest == buffer[offset'..]
  {
    offset' := offset;
    if offset + size > |buffer| {
      return Failed(TooShort), offset;
    }
    var data := buffer[offset..offset + size];
    offset' := offset + size;
    assert buffer[offset..][..size] == data && buffer[offset..][size..] == buffer[offset'..];
    r := Got(data, buffer[offset'..]);
  }

  method ReadWord(buffer: seq<Byte>, offset: nat) returns (r: Parse<Word>, offset': nat)
    requires offset <= |buffer|
    ensures offset <= offset' <= |buffer|
    ensures r == TakeWord(buffer[offset..])
    ensures r.Got? ==> r.rest == buffer[offset'..]
  {
    var data;
    data, offset' := ReadFromBuffer(buffer, offset, 2);
    match data {
      case Failed(e) => r := Failed(e);
      case Got(bytes, rest) => r := Got((bytes[0] as int) + 0x100 * (bytes[1] as int), rest);
    }
  }

  method ReadVersion(buffer: seq<Byte>, offset: nat) returns (r: Parse<Version>, offset': nat)
    requires offset <= |buffer|
    ensures offset <= offset' <= |buffer|
    ensures r == TakeVersion(buffer[offset..])
    ensures r.Got? ==> r.rest == buffer[offset'..]
  {
    var major, minor, patch;
    major, offset' := ReadWord(buffer, offset);
    if major.Failed? {
      return Failed(major.error), offset';
    }
    minor, offset' := ReadWord(buffer, offset');
    if minor.Failed? {
      return Failed(minor.error), offset';
    }
    patch, offset' := ReadWord(buffer, offset');
    if patch.Failed? {
      return Failed(patch.error), offset';
    }
    r := Got(Version(major.value, minor.value, patch.value), patch.rest);
  }

  /** A length, a check that as many bytes are there, and the bytes. */
  method ReadString(buffer: seq<Byte>, offset: nat) returns (r: Parse<seq<Byte>>, offset': nat)
    requires offset <= |buffer|
    ensures offset <= offset' <= |buffer|
    ensures r == TakeString(buffer[offset..])
    ensures r.Got? ==> r.rest == buffer[offset'..]
  {
    var size;
    size, offset' := ReadWord(buffer, offset);
    if size.Failed? {
      return Failed(size.error), offset';
    }
    if offset' + size.value > |buffer| {
      return Failed(TooShort), offset';
    }
    r, offset' := ReadFromBuffer(buffer, offset', size.value);
  }

  /** The deserialising constructor. */
  method Deserialize(buffer: seq<Byte>) returns (r: Parse<Descriptor>)
    ensures r == Decode(buffer)
    ensures r.Failed? ==>
              (r.error == InvalidSignature <==>
                 !([0x54, 0x41, 0x4D, 0x41, 0x54, 0x45, 0x42, 0x41, 0x4B, 0x4F] <= buffer))
  {
    if Decode(buffer).Failed? {
      RejectedFor(buffer);
    }

    hide TakeVersion, TakeString;
    var offset := |SIGNATURE|;
    if offset > |buffer| || buffer[..offset] != SIGNATURE {
      return Failed(InvalidSignature);
    }
    var ruby, tebako, mountPoint, entryPoint;
    ruby, offset := ReadVersion(buffer, offset);
    if ruby.Failed? {
      return Failed(ruby.error);
    }
    tebako, offset := ReadVersion(buffer, offset);
    if tebako.Failed? {
      return Failed(tebako.error);
    }
    mountPoint, offset := ReadString(buffer, offset);
    if mountPoint.Failed? {
      return Failed(mountPoint.error);
    }
    entryPoint, offset := ReadString(buffer, offset);
    if entryPoint.Failed? {
      return Failed(entryPoint.error);
    }
    var flag, cwd;
    flag, offset := ReadFromBuffer(buffer, offset, 1);
    if flag.Failed? {
      return Failed(flag.error);
    }
    if flag.value[0] == 0 {
      return Got(Descriptor(ruby.value, tebako.value, mountPoint.value, entryPoint.value, None), flag.rest);
    }
    cwd, offset := ReadString(buffer, offset);
    if cwd.Failed? {
      return Failed(cwd.error);
    }
    r := Got(Descriptor(ruby.value, tebako.value, mountPoint.value, entryPoint.value, Some(cwd.value)), cwd.rest);
  }

  method AppendString(buffer: seq<Byte>, s: seq<Byte>) returns (buffer': seq<Byte>)
    ensures buffer' == buffer + EncodeString(s)
  {
    var size := |s| % WORDS;
    buffer' := buffer + EncodeWord(size);
    buffer' := buffer' + s[..size];
  }

  method AppendVersion(buffer: seq<Byte>, v: Version) returns (buffer': seq<Byte>)
    ensures buffer' == buffer + EncodeVersion(v)
  {
    buffer' := buffer + EncodeWord(v.major);
    buffer' := buffer' + EncodeWord(v.minor);
    buffer' := buffer' + EncodeWord(v.patch);
  }

  /** `serialize`: the signature, the versions' three words each, the strings behind their lengths, low bytes first. */
  method Serialize(d: Descriptor) returns (buffer: seq<Byte>)
    ensures buffer == Encode(d)
    ensures var m, e := |d.mountPoint| % 65536, |d.entryPoint| % 65536;
            buffer ==
              [0x54, 0x41, 0x4D, 0x41, 0x54, 0x45, 0x42, 0x41, 0x4B, 0x4F] +
              [d.ruby.major % 256, d.ruby.major / 256, d.ruby.minor % 256, d.ruby.minor / 256, d.ruby.patch % 256, d.ruby.patch / 256] +
              [d.tebako.major % 256, d.tebako.major / 256, d.tebako.minor % 256, d.tebako.minor / 256, d.tebako.patch % 256, d.tebako.patch / 256] +
              ([m % 256, m / 256] + d.mountPoint[..m]) + ([e % 256, e / 256] + d.entryPoint[..e]) +
              match d.cwd
              case None => [0]
              case Some(cwd) => (var c := |cwd| % 65536; [1] + ([c % 256, c / 256] + cwd[..c]))
  {
    LayoutIs(d);
    hide EncodeVersion, EncodeString;
    buffer := SIGNATURE;
    buffer := AppendVersion(buffer, d.ruby);
    buffer := AppendVersion(buffer, d.tebako);
    buffer := AppendString(buffer, d.mountPoint);
    buffer := AppendString(buffer, d.entryPoint);
    buffer := buffer + [if d.cwd.Some? then 1 else 0];
    if d.cwd.Some? {
      buffer := AppendString(buffer, d.cwd.value);
    }
    FromLeft(SIGNATURE, EncodeVersion(d.ruby), EncodeVersion(d.tebako), EncodeString(d.mountPoint),
             EncodeString(d.entryPoint), EncodeCwd(Flag(d), d.cwd));
  }

  lemma FromLeft(a: seq<Byte>, b: seq<Byte>, c: seq<Byte>, d: seq<Byte>, e: seq<Byte>, f: seq<Byte>)
    ensures a + b + c + d + e + f == a + (b + (c + (d + (e + f))))
  {
    assert a + b + (c + (d + (e + f))) == a + (b + (c + (d + (e + f))));
    assert a + b + c + (d + (e + f)) == a + b + (c + (d + (e + f)));
    assert a + b + c + d + (e + f) == a + b + c + (d + (e + f));
  }
}
