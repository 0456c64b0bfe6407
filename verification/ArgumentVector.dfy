/** The argument vector handed to the packaged program: strings packed into one buffer of exactly their size. */
module ArgumentVector {

  const NUL: char := '\0'

  /** A C string: no NUL inside. */
  predicate IsCString(s: string) {
    NUL !in s
  }

  predicate AreCStrings(ss: seq<string>) {
    forall i | 0 <= i < |ss| :: IsCString(ss[i])
  }

  /** The strings one after the other, each ended by a NUL. */
  function Packed(ss: seq<string>): string {
    if ss == [] then "" else ss[0] + [NUL] + Packed(ss[1..])
  }

  /** `strlen` plus one for every string. */
  function PackedSize(ss: seq<string>): nat {
    if ss == [] then 0 else |ss[0]| + 1 + PackedSize(ss[1..])
  }

  function Length(t: string): (n: nat)
    ensures n <= |t|
    ensures forall i | 0 <= i < n :: t[i] != NUL
    ensures n < |t| ==> t[n] == NUL
  {
    if t == "" || t[0] == NUL then 0 else 1 + Length(t[1..])
  }

  /** The C string that starts at an offset of a buffer. */
  function StringAt(t: string, offset: nat): string
    requires offset <= |t|
  {
    t[offset..offset + Length(t[offset..])]
  }

  /** The pieces of a buffer that its NULs end. */
  function SplitAtNuls(t: string): seq<string>
    decreases |t|
  {
    var n := Length(t);
    if n == |t| then [] else [t[..n]] + SplitAtNuls(t[n + 1..])
  }

  lemma LengthOf(s: string, rest: string)
    requires IsCString(s)
    ensures Length(s + [NUL] + rest) == |s|
  {
    var t := s + [NUL] + rest;
    assert forall i | 0 <= i < |s| :: t[i] == s[i];
    assert t[|s|] == NUL;
  }

  /** Nothing is lost: splitting the packed buffer gives the strings back. */
  lemma {:induction false} SplitPacked(ss: seq<string>)
    requires AreCStrings(ss)
    ensures SplitAtNuls(Packed(ss)) == ss
    decreases |ss|
  {
    if ss == [] {
    } else {
      var rest := Packed(ss[1..]);
      LengthOf(ss[0], rest);
      var t := ss[0] + [NUL] + rest;
      assert t[..|ss[0]|] == ss[0] && t[|ss[0]| + 1..] == rest;
      SplitPacked(ss[1..]);
    }
  }

  lemma {:induction false} PackedLength(ss: seq<string>)
    ensures |Packed(ss)| == PackedSize(ss)
    decreases |ss|
  {
    if ss == [] {
    } else {
      PackedLength(ss[1..]);
    }
  }

  lemma {:induction false} PackedConcat(a: seq<string>, b: seq<string>)
    ensures Packed(a + b) == Packed(a) + Packed(b)
    ensures PackedSize(a + b) == PackedSize(a) + PackedSize(b)
    decreases |a|
  {
    if a == [] {
      assert a + b == b;
    } else {
      PackedConcat(a[1..], b);
      assert (a + b)[1..] == a[1..] + b;
      assert a[0] + [NUL] + (Packed(a[1..]) + Packed(b)) == a[0] + [NUL] + Packed(a[1..]) + Packed(b);
    }
  }

  lemma PackedOne(s: string)
    ensures Packed([s]) == s + [NUL] && PackedSize([s]) == |s| + 1
  {
    assert s + [NUL] + "" == s + [NUL];
  }

  /** A slot that holds the size of the strings before it points at its string. */
  lemma SlotPoints(ss: seq<string>, i: nat)
    requires AreCStrings(ss) && i < |ss|
    ensures PackedSize(ss[..i]) <= |Packed(ss)|
    ensures StringAt(Packed(ss), PackedSize(ss[..i])) == ss[i]
  {
    hide Length, IsCString;
    var a, b := ss[..i], ss[i..];
    assert ss == a + b;
    PackedConcat(a, b);
    PackedLength(a);
    assert Packed(ss)[|Packed(a)|..] == Packed(b);
    HeadOfPacked(b);
  }

  lemma HeadOfPacked(ss: seq<string>)
    requires ss != [] && IsCString(ss[0])
    ensures Packed(ss)[..Length(Packed(ss))] == ss[0]
  {
    LengthOf(ss[0], Packed(ss[1..]));
  }

  /** `memcpy` (or `strcpy`) to an offset of the buffer. */
  method Copy(memory: array<char>, at: nat, src: string)
    requires at + |src| <= memory.Length
    modifies memory
    ensures memory[..at + |src|] == old(memory[..at]) + src
  {
    forall i | 0 <= i < |src| {
      memory[at + i] := src[i];
    }
  }

  /** The strings of the new vector: the program, the mount point joined with the entry point, the rest. */
  function RunArguments(others: seq<string>, mountPoint: string, entryPoint: string): seq<string>
    requires others != []
  {
    [others[0], mountPoint + entryPoint] + others[1..]
  }

  /** What the slots of the vector point at. */
  predicate PointsAt(memory: string, argv: seq<nat>, ss: seq<string>) {
    |argv| == |ss| && forall i | 0 <= i < |ss| :: argv[i] <= |memory| && StringAt(memory, argv[i]) == ss[i]
  }

  function Offsets(ss: seq<string>): (r: seq<nat>)
    ensures |r| == |ss|
  {
    seq(|ss|, i requires 0 <= i < |ss| => PackedSize(ss[..i]))
  }

  lemma OffsetsPoint(ss: seq<string>)
    requires AreCStrings(ss)
    ensures PointsAt(Packed(ss), Offsets(ss), ss)
  {
    forall i | 0 <= i < |ss|
      ensures Offsets(ss)[i] <= |Packed(ss)| && StringAt(Packed(ss), Offsets(ss)[i]) == ss[i]
    {
      SlotPoints(ss, i);
    }
  }

  /** Every slot points inside the buffer, at its string. */
  lemma SlotsPoint(ss: seq<string>)
    requires AreCStrings(ss)
    ensures forall i | 0 <= i < |ss| ::
              Offsets(ss)[i] < |Packed(ss)| && StringAt(Packed(ss), Offsets(ss)[i]) == ss[i]
  {
    forall i | 0 <= i < |ss|
      ensures Offsets(ss)[i] < |Packed(ss)| && StringAt(Packed(ss), Offsets(ss)[i]) == ss[i]
    {
      SlotPoints(ss, i);
      PrefixSize(ss, i);
      PackedLength(ss);
    }
  }

  /** A buffer filled with the strings, and their offsets. */
  lemma FilledIs(ss: seq<string>, argv: seq<nat>, t: string)
    requires AreCStrings(ss) && t == Packed(ss) && argv == Offsets(ss)
    ensures PointsAt(t, argv, ss) && SplitAtNuls(t) == ss
    ensures forall i | 0 <= i < |argv| :: argv[i] < |t| && StringAt(t, argv[i]) == SplitAtNuls(t)[i]
  {
    OffsetsPoint(ss);
    SlotsPoint(ss);
    SplitPacked(ss);
  }

  lemma OffsetsNext(ss: seq<string>, s: string)
    ensures Offsets(ss + [s]) == Offsets(ss) + [PackedSize(ss)]
    ensures Packed(ss + [s]) == Packed(ss) + (s + [NUL])
    ensures PackedSize(ss + [s]) == PackedSize(ss) + |s| + 1
  {
    PackedConcat(ss, [s]);
    PackedOne(s);
    assert (ss + [s])[..|ss|] == ss;
    forall i | 0 <= i < |ss|
      ensures (ss + [s])[..i] == ss[..i]
    {
    }
  }

  lemma PrefixSize(ss: seq<string>, i: nat)
    requires i <= |ss|
    ensures PackedSize(ss[..i]) <= PackedSize(ss)
    ensures i < |ss| ==> PackedSize(ss[..i]) + |ss[i]| + 1 <= PackedSize(ss) && ss[..i + 1] == ss[..i] + [ss[i]]
  {
    assert ss == ss[..i] + ss[i..];
    PackedConcat(ss[..i], ss[i..]);
    if i < |ss| {
      assert ss[i..][0] == ss[i];
    }
  }

  lemma FirstTwo(program: string, mountPoint: string, entryPoint: string)
    ensures var ss := [program, mountPoint + entryPoint];
            && Packed(ss) == program + [NUL] + mountPoint + (entryPoint + [NUL])
            && PackedSize(ss) == |program| + 1 + |mountPoint| + |entryPoint| + 1
            && Offsets(ss) == [0, |program| + 1]
  {
    OffsetsNext([], program);
    OffsetsNext([program], mountPoint + entryPoint);
    assert [] + [program] == [program] && [program] + [mountPoint + entryPoint] == [program, mountPoint + entryPoint];
    assert program + [NUL] + (mountPoint + entryPoint + [NUL]) == program + [NUL] + mountPoint + (entryPoint + [NUL]);
  }

  /** The sum that `build_arguments_for_run` begins with. */
  method RunBufferSize(others: seq<string>, mountPoint: string, entryPoint: string) returns (size: nat)
    requires others != []
    ensures size == PackedSize(RunArguments(others, mountPoint, entryPoint))
  {
    size := |mountPoint| + |entryPoint| + 1;
    var j := 0;
    while j < |others|
      invariant 0 <= j <= |others|
      invariant size == |mountPoint| + |entryPoint| + 1 + PackedSize(others[..j])
    {
      OffsetsNext(others[..j], others[j]);
      assert others[..j + 1] == others[..j] + [others[j]];
      size := size + |others[j]| + 1;
      j := j + 1;
    }
    assert others[..j] == others;
    RunSize(others, mountPoint, entryPoint);
  }

  lemma RunSize(others: seq<string>, mountPoint: string, entryPoint: string)
    requires others != []
    ensures PackedSize(RunArguments(others, mountPoint, entryPoint)) ==
            |mountPoint| + |entryPoint| + 1 + PackedSize(others)
  {
    var ss := RunArguments(others, mountPoint, entryPoint);
    assert ss[1..][0] == mountPoint + entryPoint && ss[1..][1..] == others[1..];
  }

  lemma RunPrefix(others: seq<string>, mountPoint: string, entryPoint: string, i: nat)
    requires 1 <= i < |others|
    ensures var ss := RunArguments(others, mountPoint, entryPoint);
            && ss[..i + 2] == ss[..i + 1] + [others[i]]
            && PackedSize(ss[..i + 1]) + |others[i]| + 1 <= PackedSize(ss)
  {
    PrefixSize(RunArguments(others, mountPoint, entryPoint), i + 1);
  }

  /** `build_arguments_for_run`: the buffer is filled exactly, every slot points inside it at its string,
      and splitting the buffer at its NULs gives the strings back. */
  method BuildForRun(others: seq<string>, mountPoint: string, entryPoint: string)
    returns (memory: array<char>, argv: seq<nat>, argc: nat)
    requires others != [] && AreCStrings(others) && IsCString(mountPoint) && IsCString(entryPoint)
    ensures var ss := RunArguments(others, mountPoint, entryPoint);
            && argc == |argv| == |others| + 1
            && memory.Length == PackedSize(ss)
            && memory[..] == Packed(ss)
            && PointsAt(memory[..], argv, ss)
            && SplitAtNuls(memory[..]) == ss
    ensures SplitAtNuls(memory[..]) == [others[0], mountPoint + entryPoint] + others[1..]
    ensures forall i | 0 <= i < argc :: argv[i] < memory.Length && StringAt(memory[..], argv[i]) == SplitAtNuls(memory[..])[i]
  {
    hide Packed, PackedSize, Offsets, SplitAtNuls, PointsAt, StringAt;
    ghost var ss := RunArguments(others, mountPoint, entryPoint);
    var size := RunBufferSize(others, mountPoint, entryPoint);
    memory := new char[size];
    FirstTwo(others[0], mountPoint, entryPoint);
    assert ss[..2] == [others[0], mountPoint + entryPoint];
    PrefixSize(ss, 2);

    Copy(memory, 0, others[0] + [NUL]);
    argv := [0];
    var at := |others[0]| + 1;

    Copy(memory, at, mountPoint);
    argv := argv + [at];
    at := at + |mountPoint|;

    Copy(memory, at, entryPoint + [NUL]);
    at := at + |entryPoint| + 1;

    var i := 1;
    while i < |others|
      invariant 1 <= i <= |others|
      invariant at == PackedSize(ss[..i + 1]) <= memory.Length
      invariant memory[..at] == Packed(ss[..i + 1])
      invariant argv == Offsets(ss[..i + 1])
    {
      RunPrefix(others, mountPoint, entryPoint, i);
      OffsetsNext(ss[..i + 1], others[i]);
      Copy(memory, at, others[i] + [NUL]);
      argv := argv + [at];
      at := at + |others[i]| + 1;
      i := i + 1;
    }
    argc := |others| + 1;
    assert ss[..i + 1] == ss;
    FilledIs(ss, argv, memory[..]);
  }

  /** The vector that extracts the package instead of running it. */
  function ExtractArguments(program: string, mountPoint: string, folder: string): seq<string> {
    [program, "-e", ExtractCommand(mountPoint, folder)]
  }

  function ExtractCommand(mountPoint: string, folder: string): string {
    "require 'fileutils'; FileUtils.copy_entry '" + mountPoint + "', '" + folder + "'"
  }

  /** The interpreter is told to copy the mount point to the folder. */
  lemma ExtractArgumentsAre(program: string, mountPoint: string, folder: string)
    ensures ExtractArguments(program, mountPoint, folder) ==
            [program, "-e", "require 'fileutils'; FileUtils.copy_entry '" + mountPoint + "', '" + folder + "'"]
  {
  }

  /** `build_arguments_for_extract` */
  method BuildForExtract(program: string, mountPoint: string, folder: string)
    returns (memory: array<char>, argv: seq<nat>, argc: nat)
    requires IsCString(program) && IsCString(mountPoint) && IsCString(folder)
    ensures var ss := ExtractArguments(program, mountPoint, folder);
            && argc == |argv| == 3
            && memory.Length == PackedSize(ss)
            && memory[..] == Packed(ss)
            && PointsAt(memory[..], argv, ss)
            && SplitAtNuls(memory[..]) == ss
    ensures forall i | 0 <= i < argc :: argv[i] < memory.Length && StringAt(memory[..], argv[i]) == SplitAtNuls(memory[..])[i]
  {
    hide Packed, PackedSize, Offsets, SplitAtNuls, PointsAt, StringAt, IsCString, ExtractCommand;
    var cmd := ExtractCommand(mountPoint, folder);
    ghost var ss := ExtractArguments(program, mountPoint, folder);
    var size := 3 + |cmd| + 1 + |program| + 1;
    memory := new char[size];
    Copy(memory, 0, program + [NUL]);
    argv := [0];
    var at := |program| + 1;
    Copy(memory, at, "-e" + [NUL]);
    argv := argv + [at];
    at := at + 3;
    Copy(memory, at, cmd + [NUL]);
    argv := argv + [at];
    argc := 3;
    Three(program, "-e", cmd);
    assert argv == [0, |program| + 1, |program| + 1 + |"-e"| + 1];
    assert at + |cmd + [NUL]| == size;
    assert memory[..] == memory[..size];
    ExtractAreCStrings(program, mountPoint, folder);
    FilledIs(ss, argv, memory[..]);
  }

  lemma Three(a: string, b: string, c: string)
    ensures Packed([a, b, c]) == a + [NUL] + (b + [NUL]) + (c + [NUL])
    ensures PackedSize([a, b, c]) == |a| + 1 + |b| + 1 + |c| + 1
    ensures Offsets([a, b, c]) == [0, |a| + 1, |a| + 1 + |b| + 1]
  {
    OffsetsNext([], a);
    OffsetsNext([a], b);
    OffsetsNext([a, b], c);
    assert [] + [a] == [a] && [a] + [b] == [a, b] && [a, b] + [c] == [a, b, c];
  }

  lemma ExtractAreCStrings(program: string, mountPoint: string, folder: string)
    requires IsCString(program) && IsCString(mountPoint) && IsCString(folder)
    ensures AreCStrings(ExtractArguments(program, mountPoint, folder))
  {
    assert IsCString("require 'fileutils'; FileUtils.copy_entry '");
    assert IsCString("', '") && IsCString("'") && IsCString("-e");
  }
}
