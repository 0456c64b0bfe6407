/** The command line: scanning the library's own options out of it. */
module CommandLine {
  import opened Wrappers

  const RUN: string := "--tebako-run"
  const RUN_EX: string := "--tebako-run="
  const MOUNT: string := "--tebako-mount"
  const MOUNT_EX: string := "--tebako-mount="
  const EXTRACT: string := "--tebako-extract"
  const EXTRACT_EX: string := "--tebako-extract="
  const EXTRACT_DEST: string := "source_filesystem"

  /** What `parse_arguments` fills in. */
  datatype Options = Options(
    mountpoints: seq<string>, others: seq<string>, extractFolder: string, appImage: string, extract: bool, run: bool)

  const NO_OPTIONS: Options := Options([], [], "", "", false, false)

  datatype Error = MountWithoutRule | RunWithoutImage | RunTwice

  datatype Outcome = Parsed(o: Options) | Rejected(e: Error)

  /** What one argument does: go on after `n` arguments, or end. */
  datatype Taken = More(o: Options, n: nat) | Done(out: Outcome)

  predicate IsFlag(s: string) {
    s != "" && s[0] == '-'
  }

  function AddMount(o: Options, rule: string): Options {
    o.(mountpoints := o.mountpoints + [rule])
  }

  function SetRun(o: Options, image: string): Options {
    o.(run := true, appImage := image)
  }

  function SetExtract(o: Options, folder: string): Options {
    o.(extract := true, extractFolder := folder)
  }

  /** The argument `arg`, with the argument after it, if any. */
  function Take(arg: string, next: Option<string>, o: Options): Taken {
    if RUN_EX <= arg then
      var value := arg[|RUN_EX|..];
      if value == "" then Done(Rejected(RunWithoutImage))
      else if o.run then Done(Rejected(RunTwice))
      else More(SetRun(o, value), 1)
    else if MOUNT_EX <= arg then
      var value := arg[|MOUNT_EX|..];
      if value == "" then Done(Rejected(MountWithoutRule)) else More(AddMount(o, value), 1)
    else if EXTRACT_EX <= arg then
      var value := arg[|EXTRACT_EX|..];
      Done(Parsed(SetExtract(o, if value == "" then EXTRACT_DEST else value)))
    else if arg == RUN then
      if o.run then Done(Rejected(RunTwice))
      else if next.Some? && !IsFlag(next.value) then More(SetRun(o, next.value), 2)
      else Done(Rejected(RunWithoutImage))
    else if arg == MOUNT then
      if next.Some? && !IsFlag(next.value) then More(AddMount(o, next.value), 2)
      else Done(Rejected(MountWithoutRule))
    else if EXTRACT <= arg then
      Done(Parsed(SetExtract(o, if next.Some? && !IsFlag(next.value) then next.value else EXTRACT_DEST)))
    else More(o.(others := o.others + [arg]), 1)
  }

  function Next(args: seq<string>): Option<string> {
    if |args| > 1 then Some(args[1]) else None
  }

  function Scan(args: seq<string>, o: Options): Outcome
    decreases |args|
  {
    if args == [] then Parsed(o)
    else
      match Take(args[0], Next(args), o)
      case Done(out) => out
      case More(o', n) => if 1 <= n <= |args| then Scan(args[n..], o') else Parsed(o')
  }

  lemma TakeFits(arg: string, next: Option<string>, o: Options)
    ensures Take(arg, next, o).More? ==> 1 <= Take(arg, next, o).n <= (if next.Some? then 2 else 1)
  {
  }

  /** `parse_arguments` */
  method ParseArguments(argv: seq<string>) returns (out: Outcome)
    ensures out == Scan(argv, NO_OPTIONS)
  {
    var o := NO_OPTIONS;
    var i := 0;
    assert argv[0..] == argv;
    while i < |argv|
      invariant 0 <= i <= |argv|
      invariant Scan(argv, NO_OPTIONS) == Scan(argv[i..], o)
      decreases |argv| - i
    {
      var step, ended;
      o, step, ended, out := Argument(argv, i, o);
      if ended {
        return;
      }
      i := i + step;
    }
    assert argv[i..] == [];
    out := Parsed(o);
  }

  /** The body of the scanner's loop: how many arguments it consumes, or how it leaves the function. */
  method Argument(argv: seq<string>, i: nat, before: Options) returns (o: Options, step: nat, ended: bool, out: Outcome)
    requires i < |argv|
    ensures ended ==> out == Scan(argv[i..], before)
    ensures !ended ==> 1 <= step <= |argv| - i && Scan(argv[i..], before) == Scan(argv[i + step..], o)
  {
    var arg := argv[i];
    o, step, ended, out := before, 1, false, Parsed(before);
    ghost var next := if i + 1 < |argv| then Some(argv[i + 1]) else None;
    if RUN_EX <= arg {
      var value := arg[|RUN_EX|..];
      if value != "" {
        if o.run {
          ended, out := true, Rejected(RunTwice);
        } else {
          o := SetRun(o, value);
        }
      } else {
        ended, out := true, Rejected(RunWithoutImage);
      }
    } else if MOUNT_EX <= arg {
      var value := arg[|MOUNT_EX|..];
      if value != "" {
        o := AddMount(o, value);
      } else {
        ended, out := true, Rejected(MountWithoutRule);
      }
    } else if EXTRACT_EX <= arg {
      var value := arg[|EXTRACT_EX|..];
      ended, out := true, Parsed(SetExtract(o, if value != "" then value else EXTRACT_DEST));
    } else if arg == RUN {
      if o.run {
        ended, out := true, Rejected(RunTwice);
      } else if i + 1 < |argv| && !IsFlag(argv[i + 1]) {
        o, step := SetRun(o, argv[i + 1]), 2;
      } else {
        ended, out := true, Rejected(RunWithoutImage);
      }
    } else if arg == MOUNT {
      if i + 1 < |argv| && !IsFlag(argv[i + 1]) {
        o, step := AddMount(o, argv[i + 1]), 2;
      } else {
        ended, out := true, Rejected(MountWithoutRule);
      }
    } else if EXTRACT <= arg {
      ended, out := true, Parsed(SetExtract(o, if i + 1 < |argv| && !IsFlag(argv[i + 1]) then argv[i + 1] else EXTRACT_DEST));
    } else {
      o := o.(others := o.others + [arg]);
    }
    assert Take(arg, next, before) == if ended then Done(out) else More(o, step);
    hide Take;
    assert argv[i..][0] == arg && Next(argv[i..]) == next;
    assert !ended ==> argv[i..][step..] == argv[i + step..];
  }

  // ---------- An option and its `=` form ----------

  datatype Key = KeyRun | KeyMount | KeyExtract

  function KeyText(k: Key): string {
    match k
    case KeyRun => RUN
    case KeyMount => MOUNT
    case KeyExtract => EXTRACT
  }

  function KeyTextEx(k: Key): string {
    match k
    case KeyRun => RUN_EX
    case KeyMount => MOUNT_EX
    case KeyExtract => EXTRACT_EX
  }

  /** What an option with a value does, however it is written. */
  function Effect(k: Key, value: string, o: Options): Taken {
    match k
    case KeyRun => if o.run then Done(Rejected(RunTwice)) else More(SetRun(o, value), 1)
    case KeyMount => More(AddMount(o, value), 1)
    case KeyExtract => Done(Parsed(SetExtract(o, value)))
  }

  lemma TakePair(k: Key, value: string, o: Options)
    requires !IsFlag(value)
    ensures Take(KeyText(k), Some(value), o) ==
            match Effect(k, value, o)
            case More(o', _) => More(o', 2)
            case Done(out) => Done(out)
  {
    assert MOUNT[9] == 'm' && EXTRACT[9] == 'e' && RUN[9] == 'r';
    assert RUN_EX[9] == 'r' && MOUNT_EX[9] == 'm' && EXTRACT_EX[9] == 'e';
  }

  lemma TakeEquals(k: Key, value: string, next: Option<string>, o: Options)
    requires value != ""
    ensures Take(KeyTextEx(k) + value, next, o) == Effect(k, value, o)
  {
    var arg := KeyTextEx(k) + value;
    assert arg[9] == KeyTextEx(k)[9];
    assert RUN_EX[9] == 'r' && MOUNT_EX[9] == 'm' && EXTRACT_EX[9] == 'e';
    assert arg[|KeyTextEx(k)|..] == value;
  }

  lemma TakeFlagNext(arg: string, next: string, next': string, o: Options)
    requires IsFlag(next) && IsFlag(next')
    ensures Take(arg, Some(next), o) == Take(arg, Some(next'), o)
    ensures Take(arg, Some(next), o).More? ==> Take(arg, Some(next), o).n == 1
  {
  }

  lemma EqualsHere(k: Key, value: string, after: seq<string>, o: Options)
    requires value != "" && !IsFlag(value)
    ensures Scan([KeyText(k), value] + after, o) == Scan([KeyTextEx(k) + value] + after, o)
  {
    hide Take, KeyText, KeyTextEx, IsFlag;
    var x, y := [KeyText(k), value] + after, [KeyTextEx(k) + value] + after;
    TakePair(k, value, o);
    TakeEquals(k, value, Next(y), o);
    assert x[0] == KeyText(k) && Next(x) == Some(value) && x[2..] == after;
    assert y[0] == KeyTextEx(k) + value && y[1..] == after;
  }

  lemma KeysAreFlags(k: Key, value: string)
    ensures IsFlag(KeyText(k)) && IsFlag(KeyTextEx(k) + value)
  {
  }

  /** Two argument lists whose second parts scan alike and begin with a flag scan alike behind anything. */
  lemma {:induction false} ScanBehind(before: seq<string>, x: seq<string>, y: seq<string>, o: Options)
    requires x != [] && y != [] && IsFlag(x[0]) && IsFlag(y[0])
    requires forall p :: Scan(x, p) == Scan(y, p)
    ensures Scan(before + x, o) == Scan(before + y, o)
    decreases |before|
  {
    hide Take, IsFlag;
    var a, b := before + x, before + y;
    if before == [] {
      assert a == x && b == y;
    } else {
      assert a[0] == b[0] == before[0];
      if |before| == 1 {
        assert Next(a) == Some(x[0]) && Next(b) == Some(y[0]);
        TakeFlagNext(before[0], x[0], y[0], o);
      } else {
        assert Next(a) == Next(b) == Some(before[1]);
      }
      TakeFits(before[0], Next(a), o);
      var t := Take(before[0], Next(a), o);
      if t.More? {
        assert a[t.n..] == before[t.n..] + x && b[t.n..] == before[t.n..] + y;
        ScanBehind(before[t.n..], x, y, t.o);
      }
    }
  }

  /** Writing `--option X` as `--option=X` changes nothing, wherever it stands and however the scan ends:
      the same options, the same error, or the same early exit. */
  lemma EqualsForm(before: seq<string>, k: Key, value: string, after: seq<string>, o: Options)
    requires value != "" && !IsFlag(value)
    ensures Scan(before + ([KeyText(k), value] + after), o) == Scan(before + ([KeyTextEx(k) + value] + after), o)
  {
    hide KeyText, KeyTextEx, IsFlag;
    KeysAreFlags(k, value);
    forall p
      ensures Scan([KeyText(k), value] + after, p) == Scan([KeyTextEx(k) + value] + after, p)
    {
      EqualsHere(k, value, after, p);
    }
    ScanBehind(before, [KeyText(k), value] + after, [KeyTextEx(k) + value] + after, o);
  }

  /** The two ways of writing an option have the same immediate effect. */
  predicate SameEffect(pair: Taken, equals: Taken) {
    match (pair, equals)
    case (More(o, _), More(o', _)) => o == o'
    case (Done(out), Done(out')) => out == out'
    case _ => false
  }

  /** The condition is needed: an empty value or one that looks like a flag is treated differently, but
      for a repeated --tebako-run, which is an error either way. */
  lemma EqualsFormIff(k: Key, value: string, next: Option<string>, o: Options)
    ensures SameEffect(Take(KeyText(k), Some(value), o), Take(KeyTextEx(k) + value, next, o)) <==>
            value != "" && (!IsFlag(value) || (k.KeyRun? && o.run))
  {
    assert MOUNT[9] == 'm' && EXTRACT[9] == 'e' && RUN[9] == 'r';
    assert RUN_EX[9] == 'r' && MOUNT_EX[9] == 'm' && EXTRACT_EX[9] == 'e';
    var arg := KeyTextEx(k) + value;
    assert arg[9] == KeyTextEx(k)[9];
    assert arg[|KeyTextEx(k)|..] == value;
    assert EXTRACT_DEST[0] == 's';
    if k.KeyMount? {
      assert AddMount(o, value) != o;
    }
  }

  // ---------- Scanning again ----------

  /** An argument that is none of the library's own. */
  predicate IsOther(arg: string) {
    !(RUN_EX <= arg) && !(MOUNT_EX <= arg) && arg != RUN && arg != MOUNT && !(EXTRACT <= arg)
  }

  lemma TakeOther(arg: string, next: Option<string>, o: Options)
    ensures IsOther(arg) ==> Take(arg, next, o) == More(o.(others := o.others + [arg]), 1)
    ensures !IsOther(arg) ==>
              match Take(arg, next, o)
              case More(o', _) => o'.others == o.others
              case Done(Parsed(o')) => o'.others == o.others
              case _ => true
  {
    assert EXTRACT_EX[..|EXTRACT|] == EXTRACT;
    assert EXTRACT_EX <= arg ==> arg[..|EXTRACT|] == EXTRACT_EX[..|EXTRACT|];
  }

  lemma {:induction false} OthersAreOthers(args: seq<string>, o: Options)
    requires forall i | 0 <= i < |o.others| :: IsOther(o.others[i])
    ensures Scan(args, o).Parsed? ==> forall i | 0 <= i < |Scan(args, o).o.others| :: IsOther(Scan(args, o).o.others[i])
    decreases |args|
  {
    hide Take, IsOther;
    if args == [] {
    } else {
      var t := Take(args[0], Next(args), o);
      TakeOther(args[0], Next(args), o);
      TakeFits(args[0], Next(args), o);
      if t.More? {
        OthersAreOthers(args[t.n..], t.o);
      }
    }
  }

  lemma {:induction false} ScanOthers(args: seq<string>, o: Options)
    requires forall i | 0 <= i < |args| :: IsOther(args[i])
    ensures Scan(args, o) == Parsed(o.(others := o.others + args))
    decreases |args|
  {
    hide Take, IsOther;
    if args == [] {
      assert o.others + [] == o.others;
    } else {
      TakeOther(args[0], Next(args), o);
      var o' := o.(others := o.others + [args[0]]);
      ScanOthers(args[1..], o');
      assert o.others + [args[0]] + args[1..] == o.others + args;
    }
  }

  /** Scanning the collected other arguments again returns them all and sets no option. */
  lemma ScanAgain(args: seq<string>)
    requires Scan(args, NO_OPTIONS).Parsed?
    ensures var others := Scan(args, NO_OPTIONS).o.others;
            Scan(others, NO_OPTIONS) == Parsed(NO_OPTIONS.(others := others))
  {
    OthersAreOthers(args, NO_OPTIONS);
    var others := Scan(args, NO_OPTIONS).o.others;
    ScanOthers(others, NO_OPTIONS);
    assert [] + others == others;
  }

  // ---------- Extraction ----------

  /** The scan comes to argument `i`, having consumed the ones before it. */
  predicate ComesTo(args: seq<string>, o: Options, i: nat)
    decreases |args|
  {
    args != [] &&
    (i == 0 ||
     match Take(args[0], Next(args), o)
     case More(o', n) => 1 <= n <= |args| && n <= i && ComesTo(args[n..], o', i - n)
     case Done(_) => false)
  }

  /** An argument that only begins like --tebako-extract asks for extraction; no other argument does. */
  lemma TakeExtract(arg: string, next: Option<string>, o: Options)
    ensures EXTRACT <= arg ==>
              Take(arg, next, o).Done? && Take(arg, next, o).out.Parsed? && Take(arg, next, o).out.o.extract
    ensures !(EXTRACT <= arg) ==>
              match Take(arg, next, o)
              case More(o', _) => o'.extract == o.extract
              case Done(out) => out.Rejected?
  {
    assert MOUNT[9] == 'm' && EXTRACT[9] == 'e' && RUN[9] == 'r';
    assert RUN_EX[9] == 'r' && MOUNT_EX[9] == 'm';
    assert EXTRACT_EX[..|EXTRACT|] == EXTRACT;
    assert EXTRACT_EX <= arg ==> arg[..|EXTRACT|] == EXTRACT_EX[..|EXTRACT|];
  }

  /** The package is extracted instead of run if and only if the scan comes to an argument that begins with
      --tebako-extract, whatever follows in it. */
  lemma {:induction false} ExtractsIff(args: seq<string>, o: Options)
    requires !o.extract
    ensures Scan(args, o).Parsed? && Scan(args, o).o.extract <==>
            exists i | 0 <= i < |args| :: ComesTo(args, o, i) && EXTRACT <= args[i]
    decreases |args|
  {
    hide Take;
    if args == [] {
    } else {
      var t := Take(args[0], Next(args), o);
      TakeExtract(args[0], Next(args), o);
      TakeFits(args[0], Next(args), o);
      assert ComesTo(args, o, 0);
      if t.More? {
        var rest := args[t.n..];
        ExtractsIff(rest, t.o);
        assert forall i | 0 <= i < |rest| :: ComesTo(rest, t.o, i) ==> ComesTo(args, o, i + t.n) && rest[i] == args[i + t.n];
        assert forall i | 0 < i < |args| :: ComesTo(args, o, i) ==> i >= t.n && ComesTo(rest, t.o, i - t.n) && args[i] == rest[i - t.n];
      }
    }
  }

  /** So this one, which nobody documents, extracts too, into the default folder. */
  lemma ExtractorExtracts()
    ensures Scan(["--tebako-extractor"], NO_OPTIONS) == Parsed(SetExtract(NO_OPTIONS, EXTRACT_DEST))
  {
    var arg := "--tebako-extractor";
    assert arg[..|EXTRACT|] == EXTRACT && arg[9] == 'e' && arg[|EXTRACT|] == 'o';
    assert RUN_EX[9] == 'r' && MOUNT_EX[9] == 'm' && EXTRACT_EX[|EXTRACT|] == '=';
  }

  // ---------- What a command line means ----------

  /** A part of a command line that the scan goes past. */
  datatype Piece = MountPair(rule: string) | MountEquals(rule: string) | RunPair(image: string) | RunEquals(image: string)
                 | Other(arg: string)

  predicate IsPiece(p: Piece) {
    match p
    case MountPair(rule) => !IsFlag(rule)
    case MountEquals(rule) => rule != ""
    case RunPair(image) => !IsFlag(image)
    case RunEquals(image) => image != ""
    case Other(arg) => IsOther(arg)
  }

  function Spell(p: Piece): seq<string> {
    match p
    case MountPair(rule) => ["--tebako-mount", rule]
    case MountEquals(rule) => ["--tebako-mount=" + rule]
    case RunPair(image) => ["--tebako-run", image]
    case RunEquals(image) => ["--tebako-run=" + image]
    case Other(arg) => [arg]
  }

  function SpellAll(ps: seq<Piece>): seq<string> {
    if ps == [] then [] else Spell(ps[0]) + SpellAll(ps[1..])
  }

  function Rules(ps: seq<Piece>): seq<string> {
    if ps == [] then []
    else (if ps[0].MountPair? || ps[0].MountEquals? then [ps[0].rule] else []) + Rules(ps[1..])
  }

  function Images(ps: seq<Piece>): seq<string> {
    if ps == [] then []
    else (if ps[0].RunPair? || ps[0].RunEquals? then [ps[0].image] else []) + Images(ps[1..])
  }

  function Others(ps: seq<Piece>): seq<string> {
    if ps == [] then [] else (if ps[0].Other? then [ps[0].arg] else []) + Others(ps[1..])
  }

  /** The options after the pieces: all rules and all other arguments, in order, and the one image. */
  function Collected(o: Options, ps: seq<Piece>): Options {
    Options(o.mountpoints + Rules(ps), o.others + Others(ps), o.extractFolder,
            if Images(ps) == [] then o.appImage else Images(ps)[0], o.extract, o.run || Images(ps) != [])
  }

  /** Pieces that the scan goes past: at most one image in all. */
  predicate ArePieces(ps: seq<Piece>, o: Options) {
    (forall i | 0 <= i < |ps| :: IsPiece(ps[i])) && |Images(ps)| <= (if o.run then 0 else 1)
  }

  lemma TakePiece(p: Piece, next: Option<string>, o: Options)
    requires IsPiece(p) && (p.RunPair? || p.RunEquals? ==> !o.run)
    requires |Spell(p)| == 2 ==> next == Some(Spell(p)[1])
    ensures Take(Spell(p)[0], next, o) == More(Collected(o, [p]), |Spell(p)|)
  {
    assert MOUNT[9] == 'm' && EXTRACT[9] == 'e' && RUN[9] == 'r';
    assert RUN_EX[9] == 'r' && MOUNT_EX[9] == 'm' && EXTRACT_EX[9] == 'e';
    OnePiece(p);
    hide IsFlag, Rules, Images, Others;
    var none: seq<string> := [];
    assert o.mountpoints + none == o.mountpoints && o.others + none == o.others;
    match p {
      case MountPair(rule) =>
      case MountEquals(rule) =>
        assert Spell(p)[0][9] == 'm' && Spell(p)[0][|MOUNT_EX|..] == rule;
      case RunPair(image) =>
      case RunEquals(image) =>
        assert Spell(p)[0][9] == 'r' && Spell(p)[0][|RUN_EX|..] == image;
      case Other(arg) => TakeOther(arg, next, o);
    }
  }

  lemma OnePiece(p: Piece)
    ensures Rules([p]) == if p.MountPair? || p.MountEquals? then [p.rule] else []
    ensures Images([p]) == if p.RunPair? || p.RunEquals? then [p.image] else []
    ensures Others([p]) == if p.Other? then [p.arg] else []
  {
    assert [p][1..] == [];
  }

  lemma FirstOff(ps: seq<Piece>)
    requires ps != []
    ensures Rules(ps) == Rules([ps[0]]) + Rules(ps[1..])
    ensures Images(ps) == Images([ps[0]]) + Images(ps[1..])
    ensures Others(ps) == Others([ps[0]]) + Others(ps[1..])
    ensures Images([ps[0]]) == if ps[0].RunPair? || ps[0].RunEquals? then [ps[0].image] else []
  {
    OnePiece(ps[0]);
  }

  lemma CollectedNext(o: Options, ps: seq<Piece>)
    requires ps != [] && ArePieces(ps, o)
    ensures var o' := Collected(o, [ps[0]]);
            && ArePieces(ps[1..], o') && Collected(o', ps[1..]) == Collected(o, ps)
            && IsPiece(ps[0]) && (ps[0].RunPair? || ps[0].RunEquals? ==> !o.run)
  {
    hide IsPiece, Rules, Images, Others;
    FirstOff(ps);
    var first, rest := [ps[0]], ps[1..];
    assert forall i | 0 <= i < |rest| :: rest[i] == ps[i + 1];
    assert o.mountpoints + Rules(first) + Rules(rest) == o.mountpoints + (Rules(first) + Rules(rest));
    assert o.others + Others(first) + Others(rest) == o.others + (Others(first) + Others(rest));
  }

  /** Behind any pieces the scan goes on with all that they say. */
  lemma {:induction false} ScanPieces(ps: seq<Piece>, rest: seq<string>, o: Options)
    requires ArePieces(ps, o)
    ensures Scan(SpellAll(ps) + rest, o) == Scan(rest, Collected(o, ps))
    decreases |ps|
  {
    hide Take, IsPiece, Collected, ArePieces, Spell, Scan;
    if ps == [] {
      assert [] + rest == rest;
      NothingCollected(o);
    } else {
      CollectedNext(o, ps);
      assert SpellAll(ps) + rest == Spell(ps[0]) + (SpellAll(ps[1..]) + rest);
      ScanOne(ps[0], SpellAll(ps[1..]) + rest, o);
      ScanPieces(ps[1..], rest, Collected(o, [ps[0]]));
    }
  }

  lemma ScanOne(p: Piece, after: seq<string>, o: Options)
    requires IsPiece(p) && (p.RunPair? || p.RunEquals? ==> !o.run)
    ensures Scan(Spell(p) + after, o) == Scan(after, Collected(o, [p]))
  {
    hide Take, IsPiece, Collected;
    var args := Spell(p) + after;
    assert args[0] == Spell(p)[0] && (|Spell(p)| == 2 ==> Next(args) == Some(Spell(p)[1]));
    TakePiece(p, Next(args), o);
    assert args[|Spell(p)|..] == after;
  }

  lemma NothingCollected(o: Options)
    ensures Collected(o, []) == o && ArePieces([], o) && SpellAll([]) == []
  {
    assert o.mountpoints + [] == o.mountpoints && o.others + [] == o.others;
  }

  /** How a scan that does not get to the end of the command line ends, by the first argument that is no piece. */
  lemma EndIs(rest: seq<string>, o: Options)
    requires rest != []
    ensures var arg, value := rest[0], |rest| > 1 && (rest[1] == "" || rest[1][0] != '-');
            && (arg == "--tebako-run" && !o.run && !value ==> Scan(rest, o) == Rejected(RunWithoutImage))
            && (arg == "--tebako-run=" ==> Scan(rest, o) == Rejected(RunWithoutImage))
            && (arg == "--tebako-run" && o.run ==> Scan(rest, o) == Rejected(RunTwice))
            && ("--tebako-run=" <= arg && arg != "--tebako-run=" && o.run ==> Scan(rest, o) == Rejected(RunTwice))
            && (arg == "--tebako-mount" && !value ==> Scan(rest, o) == Rejected(MountWithoutRule))
            && (arg == "--tebako-mount=" ==> Scan(rest, o) == Rejected(MountWithoutRule))
            && ("--tebako-extract=" <= arg ==>
                  Scan(rest, o) == Parsed(o.(extract := true,
                    extractFolder := if arg == "--tebako-extract=" then "source_filesystem" else arg[17..])))
            && ("--tebako-extract" <= arg && !("--tebako-extract=" <= arg) ==>
                  Scan(rest, o) == Parsed(o.(extract := true,
                    extractFolder := if value then rest[1] else "source_filesystem")))
  {
    assert MOUNT[9] == 'm' && EXTRACT[9] == 'e' && RUN[9] == 'r';
    assert RUN_EX[9] == 'r' && MOUNT_EX[9] == 'm' && EXTRACT_EX[9] == 'e';
    assert RUN_EX[..|RUN|] == RUN && MOUNT_EX[..|MOUNT|] == MOUNT;
  }

  /** No piece: one of the arguments that end a scan. */
  predicate IsEnd(rest: seq<string>, o: Options) {
    rest != [] &&
    var arg, value := rest[0], |rest| > 1 && (rest[1] == "" || rest[1][0] != '-');
    || "--tebako-extract" <= arg
    || (arg == "--tebako-run" && (o.run || !value))
    || ("--tebako-run=" <= arg && (o.run || arg == "--tebako-run="))
    || (arg == "--tebako-mount" && !value)
    || arg == "--tebako-mount="
  }

  /** Every command line is pieces up to its end or up to such an argument; so the two lemmas before say what
      every scan comes to. */
  lemma {:induction false} EveryLine(args: seq<string>, o: Options) returns (ps: seq<Piece>, rest: seq<string>)
    ensures args == SpellAll(ps) + rest && ArePieces(ps, o)
    ensures rest == [] || IsEnd(rest, Collected(o, ps))
    ensures rest == [] ==> Scan(args, o) == Parsed(Collected(o, ps))
    decreases |args|
  {
    hide IsPiece, Collected, ArePieces, Spell, SpellAll, IsEnd, Scan, Images;
    NothingCollected(o);
    if args == [] || IsEnd(args, o) {
      ps, rest := [], args;
      assert SpellAll([]) + args == args;
    } else {
      var p := FirstPiece(args, o);
      assert args == Spell(p) + args[|Spell(p)|..];
      var more;
      more, rest := EveryLine(args[|Spell(p)|..], Collected(o, [p]));
      ps := [p] + more;
      PiecesCons(p, more, o);
      assert Spell(p) + SpellAll(more) + rest == Spell(p) + (SpellAll(more) + rest);
    }
    ScanPieces(ps, rest, o);
    ScanNothing(Collected(o, ps));
  }

  lemma ScanNothing(o: Options)
    ensures Scan([], o) == Parsed(o)
  {
  }

  lemma FirstPiece(args: seq<string>, o: Options) returns (p: Piece)
    requires args != [] && !IsEnd(args, o)
    ensures IsPiece(p) && (p.RunPair? || p.RunEquals? ==> !o.run) && Spell(p) <= args && Spell(p) != []
  {
    var arg := args[0];
    if "--tebako-run=" <= arg {
      p := RunEquals(arg[13..]);
      assert "--tebako-run=" + arg[13..] == arg;
    } else if "--tebako-mount=" <= arg {
      p := MountEquals(arg[15..]);
      assert "--tebako-mount=" + arg[15..] == arg;
    } else if arg == "--tebako-run" {
      p := RunPair(args[1]);
      assert args[..2] == Spell(p);
    } else if arg == "--tebako-mount" {
      p := MountPair(args[1]);
      assert args[..2] == Spell(p);
    } else {
      p := Other(arg);
    }
  }

  lemma PiecesCons(p: Piece, more: seq<Piece>, o: Options)
    requires IsPiece(p) && (p.RunPair? || p.RunEquals? ==> !o.run) && ArePieces(more, Collected(o, [p]))
    ensures ArePieces([p] + more, o) && Collected(Collected(o, [p]), more) == Collected(o, [p] + more)
    ensures SpellAll([p] + more) == Spell(p) + SpellAll(more)
  {
    hide IsPiece, Spell, Rules, Images, Others;
    var ps := [p] + more;
    assert ps[0] == p && ps[1..] == more;
    FirstOff(ps);
    assert o.mountpoints + Rules([p]) + Rules(more) == o.mountpoints + (Rules([p]) + Rules(more));
    assert o.others + Others([p]) + Others(more) == o.others + (Others([p]) + Others(more));
  }
}
