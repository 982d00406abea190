/**
 The append only file as bytes: how commands are printed to it and how the loader reads it
 back, also when the file was cut short by a crash. Reading is through the C library's
 fgets, atoi, strtol and fread, which are given here as functions of the file's bytes.
 */
module AofFormat {
  import opened Common

  type Arg = seq<Byte>
  type Command = seq<Arg>

  const CR: Byte := 13
  const LF: Byte := 10
  const STAR: Byte := 42
  const DOLLAR: Byte := 36

  // ---------------------------------------------------------------- printing

  /** ll2string on a non-negative number. */
  function Decimal(n: nat): (d: seq<Byte>)
    ensures |d| > 0
  {
    if n < 10 then [48 + n] else Decimal(n / 10) + [48 + n % 10]
  }

  function Head(mark: Byte, n: nat): seq<Byte> {
    [mark] + Decimal(n) + [CR, LF]
  }

  function EncodeArg(a: Arg): seq<Byte> {
    Head(DOLLAR, |a|) + a + [CR, LF]
  }

  function EncodeArgs(args: seq<Arg>): seq<Byte> {
    if args == [] then [] else EncodeArg(args[0]) + EncodeArgs(args[1..])
  }

  function Encode(c: Command): seq<Byte> {
    Head(STAR, |c|) + EncodeArgs(c)
  }

  /** The file that results from logging the commands in order. */
  function Log(cmds: seq<Command>): seq<Byte> {
    if cmds == [] then [] else Encode(cmds[0]) + Log(cmds[1..])
  }

  /** catAppendOnlyGenericCommand */
  method CatAppendOnlyGenericCommand(dst: seq<Byte>, argv: Command) returns (r: seq<Byte>)
    ensures r == dst + Encode(argv)
  {
    r := dst + Head(STAR, |argv|);
    for j := 0 to |argv|
      invariant r + EncodeArgs(argv[j..]) == dst + Encode(argv)
    {
      assert argv[j..][1..] == argv[j + 1..];
      r := r + Head(DOLLAR, |argv[j]|);
      r := r + argv[j];
      r := r + [CR, LF];
    }
  }

  // ---------------------------------------------------------------- the C library

  /** Where fgets stops with room for that many bytes. */
  function LineEnd(file: seq<Byte>, pos: nat, room: nat): (e: nat)
    requires pos <= |file|
    ensures pos <= e <= |file| && (pos < |file| && room > 0 ==> pos < e)
    decreases |file| - pos
  {
    if room == 0 || pos == |file| then pos
    else if file[pos] == LF then pos + 1
    else LineEnd(file, pos + 1, room - 1)
  }

  const LINE_ROOM := 127

  predicate IsDigit(b: Byte) { 48 <= b <= 57 }

  predicate IsSpace(b: Byte) { b == 32 || 9 <= b <= 13 }

  function DigitsValue(s: seq<Byte>, acc: nat): (v: nat)
    ensures v >= acc
  {
    if s == [] || !IsDigit(s[0]) then acc else DigitsValue(s[1..], 10 * acc + (s[0] - 48))
  }

  const LONG_MAX: int := 0x7fff_ffff_ffff_ffff

  /** strtol in base ten, with a 64-bit long: it saturates. */
  function Strtol(s: seq<Byte>): (v: int)
    ensures -LONG_MAX - 1 <= v <= LONG_MAX
  {
    if s != [] && IsSpace(s[0]) then Strtol(s[1..])
    else if s != [] && s[0] == 45 then
      var v := DigitsValue(s[1..], 0);
      if v > LONG_MAX + 1 then -LONG_MAX - 1 else 0 - v
    else
      var v := DigitsValue(if s != [] && s[0] == 43 then s[1..] else s, 0);
      if v > LONG_MAX then LONG_MAX else v
  }

  /** A long assigned to an int. */
  function ToInt(v: int): int {
    (v + 0x8000_0000) % 0x1_0000_0000 - 0x8000_0000
  }

  /** A long assigned to an unsigned long. */
  function ToULong(v: int): nat
    requires -LONG_MAX - 1 <= v <= LONG_MAX
  {
    if v < 0 then v + 0x1_0000_0000_0000_0000 else v
  }

  // ---------------------------------------------------------------- reading one command

  datatype Read<+T> =
    | Got(value: T, next: nat)
    | End
    | Short
    | Broken
    | Bad

  /** One argument: its length line, its bytes and the two bytes after them. */
  function ReadArg(file: seq<Byte>, pos: nat): (r: Read<Arg>)
    requires pos <= |file|
    ensures r.Got? ==> pos < r.next <= |file|
    ensures !r.End? && !r.Broken?
  {
    var next := LineEnd(file, pos, LINE_ROOM);
    var line := file[pos..next];
    if pos == |file| then Short
    else if line[0] != DOLLAR then Bad
    else
      var len := ToULong(Strtol(line[1..]));
      if next + len > |file| || next + len + 2 > |file| then Short
      else Got(file[next..next + len], next + len + 2)
  }

  function Behind(argv: seq<Arg>, r: Read<seq<Arg>>): Read<seq<Arg>> {
    if r.Got? then Got(argv + r.value, r.next) else r
  }

  function ReadArgs(file: seq<Byte>, pos: nat, argc: nat): (r: Read<seq<Arg>>)
    requires pos <= |file|
    ensures r.Got? ==> pos + argc <= r.next <= |file| && |r.value| == argc
    ensures !r.End? && !r.Broken?
    decreases argc
  {
    if argc == 0 then Got([], pos)
    else
      match ReadArg(file, pos)
      case Got(a, next) => Behind([a], ReadArgs(file, next, argc - 1))
      case Short => Short
      case Bad => Bad
  }

  /** One command. End is a clean end of file, Short one in the middle of a command, Broken a read error before the end. */
  function ReadCommand(file: seq<Byte>, pos: nat): (r: Read<Command>)
    requires pos <= |file|
    ensures r.Got? ==> pos < r.next <= |file| && |r.value| > 0
  {
    var next := LineEnd(file, pos, LINE_ROOM);
    var line := file[pos..next];
    if pos == |file| then End
    else if line[0] != STAR then Bad
    else if |line| == 1 || line[1] == 0 then
      if next == |file| && |line| < LINE_ROOM && line[|line| - 1] != LF then Short else Broken
    else
      var argc := ToInt(Strtol(line[1..]));
      if argc < 1 then Bad else ReadArgs(file, next, argc)
  }

  // ---------------------------------------------------------------- loading

  datatype Outcome =
    | EmptyFile
    | Loaded(cmds: seq<Command>, file: seq<Byte>)
    | UnexpectedEnd(cmds: seq<Command>)
    | ReadError(cmds: seq<Command>)
    | FormatError(cmds: seq<Command>)
    | UnknownCommand(cmds: seq<Command>)

  /** Label uxeof: the file is cut after the last whole command, if the configuration says so. */
  function Unexpected(file: seq<Byte>, validUpTo: nat, cmds: seq<Command>, loadTruncated: bool): Outcome
    requires validUpTo <= |file|
  {
    if loadTruncated then Loaded(cmds, file[..validUpTo]) else UnexpectedEnd(cmds)
  }

  /**
   What loading comes to from position pos on, after cmds. `known` is the command table;
   `open` says whether the commands leave a MULTI without its EXEC.
   */
  function LoadFrom(file: seq<Byte>, pos: nat, cmds: seq<Command>,
                    known: Arg -> bool, open: seq<Command> -> bool, loadTruncated: bool): Outcome
    requires pos <= |file|
    decreases |file| - pos
  {
    match ReadCommand(file, pos)
    case End => if open(cmds) then Unexpected(file, pos, cmds, loadTruncated) else Loaded(cmds, file)
    case Short => Unexpected(file, pos, cmds, loadTruncated)
    case Broken => ReadError(cmds)
    case Bad => FormatError(cmds)
    case Got(c, next) =>
      if known(c[0]) then LoadFrom(file, next, cmds + [c], known, open, loadTruncated) else UnknownCommand(cmds)
  }

  function Load(file: seq<Byte>, known: Arg -> bool, open: seq<Command> -> bool, loadTruncated: bool): Outcome {
    if file == [] then EmptyFile else LoadFrom(file, 0, [], known, open, loadTruncated)
  }

  /** One round of the inner loop. */
  method ReadOneArg(file: seq<Byte>, pos: nat) returns (r: Read<Arg>)
    requires pos <= |file|
    ensures r == ReadArg(file, pos)
  {
    if pos == |file| { return Short; }
    var next := LineEnd(file, pos, LINE_ROOM);
    var buf := file[pos..next];
    if buf[0] != DOLLAR { return Bad; }
    var len := ToULong(Strtol(buf[1..]));
    if len != 0 && next + len > |file| { return Short; }
    var a := file[next..next + len];
    if next + len + 2 > |file| { return Short; }
    return Got(a, next + len + 2);
  }

  /** The inner loop of loadAppendOnlyFile: Short stands for its jumps to readerr. */
  method ReadArgv(file: seq<Byte>, start: nat, argc: nat) returns (r: Read<seq<Arg>>)
    requires start <= |file|
    ensures r == ReadArgs(file, start, argc)
  {
    var argv: seq<Arg>, pos: nat := [], start;
    BehindOne([], [], ReadArgs(file, start, argc));
    for j := 0 to argc
      invariant pos <= |file| && |argv| == j
      invariant ReadArgs(file, start, argc) == Behind(argv, ReadArgs(file, pos, argc - j))
    {
      var arg := ReadOneArg(file, pos);
      if !arg.Got? { return if arg.Bad? then Bad else Short; }
      BehindOne(argv, arg.value, ReadArgs(file, arg.next, argc - j - 1));
      argv := argv + [arg.value];
      pos := arg.next;
    }
    assert argv + [] == argv;
    return Got(argv, pos);
  }

  lemma BehindOne(argv: seq<Arg>, a: Arg, r: Read<seq<Arg>>)
    ensures Behind(argv, Behind([a], r)) == Behind(argv + [a], r)
    ensures Behind([], r) == r
  {
    if r.Got? {
      assert [] + r.value == r.value;
      assert argv + ([a] + r.value) == argv + [a] + r.value;
    }
  }

  /** loadAppendOnlyFile; executing a command is adding it to the commands run. */
  method LoadAppendOnlyFile(file: seq<Byte>, known: Arg -> bool, open: seq<Command> -> bool, loadTruncated: bool)
    returns (r: Outcome)
    ensures r == Load(file, known, open, loadTruncated)
  {
    if |file| == 0 { return EmptyFile; }
    var pos: nat, validUpTo: nat, cmds: seq<Command> := 0, 0, [];
    while true
      invariant pos <= |file| && (loadTruncated ==> validUpTo == pos) && validUpTo <= |file|
      invariant LoadFrom(file, pos, cmds, known, open, loadTruncated) == Load(file, known, open, loadTruncated)
      decreases |file| - pos
    {
      if pos == |file| { break; }
      var next := LineEnd(file, pos, LINE_ROOM);
      var buf := file[pos..next];
      if buf[0] != STAR { return FormatError(cmds); }
      if |buf| == 1 || buf[1] == 0 {
        if next == |file| && |buf| < LINE_ROOM && buf[|buf| - 1] != LF {
          return Unexpected(file, validUpTo, cmds, loadTruncated);
        }
        return ReadError(cmds);
      }
      var argc := ToInt(Strtol(buf[1..]));
      if argc < 1 { return FormatError(cmds); }
      var args := ReadArgv(file, next, argc);
      if args.Bad? { return FormatError(cmds); }
      if args.Short? { return Unexpected(file, validUpTo, cmds, loadTruncated); }
      var argv := args.value;
      if !known(argv[0]) { return UnknownCommand(cmds); }
      cmds := cmds + [argv];
      pos := args.next;
      if loadTruncated { validUpTo := pos; }
    }
    if open(cmds) { return Unexpected(file, validUpTo, cmds, loadTruncated); }
    return Loaded(cmds, file);
  }

  // ---------------------------------------------------------------- numbers

  ghost predicate Digits(s: seq<Byte>) {
    forall i :: 0 <= i < |s| ==> IsDigit(s[i])
  }

  lemma {:induction false} DecimalIsDigits(n: nat)
    ensures Digits(Decimal(n)) && (n > 0 ==> Decimal(n)[0] > 48)
    ensures DigitsValue(Decimal(n), 0) == n
  {
    if n >= 10 {
      DecimalIsDigits(n / 10);
      DigitsSplit(Decimal(n / 10), [48 + n % 10], 0);
      assert [48 + n % 10][1..] == [];
    } else {
      assert [48 + n][1..] == [];
    }
  }

  /** Reading on after a run of digits continues from their value. */
  lemma {:induction false} DigitsSplit(a: seq<Byte>, b: seq<Byte>, acc: nat)
    requires Digits(a)
    ensures DigitsValue(a + b, acc) == DigitsValue(b, DigitsValue(a, acc))
  {
    if a == [] {
      assert a + b == b;
    } else {
      assert (a + b)[1..] == a[1..] + b;
      DigitsSplit(a[1..], b, 10 * acc + (a[0] - 48));
    }
  }

  function Pow10(k: nat): nat {
    if k == 0 then 1 else 10 * Pow10(k - 1)
  }

  lemma {:induction false} DecimalIsShort(n: nat, k: nat)
    requires n < Pow10(k) && k > 0
    ensures |Decimal(n)| <= k
  {
    if n >= 10 {
      DecimalIsShort(n / 10, k - 1);
    }
  }

  lemma LongIsShort(n: nat)
    requires n <= LONG_MAX
    ensures |Decimal(n)| <= 20
  {
    assert Pow10(5) == 100_000;
    assert Pow10(10) == 100_000 * 100_000 by {
      assert Pow10(10) == 10 * (10 * (10 * (10 * (10 * Pow10(5)))));
    }
    assert Pow10(15) == 10 * (10 * (10 * (10 * (10 * Pow10(10)))));
    assert Pow10(20) == 10 * (10 * (10 * (10 * (10 * Pow10(15)))));
    DecimalIsShort(n, 20);
  }

  /** A non-empty piece from the front of a printed number reads as a number no greater, and not zero unless it is. */
  lemma CutNumber(n: nat, k: nat)
    requires 0 < k <= |Decimal(n)| && n <= LONG_MAX
    ensures 0 <= Strtol(Decimal(n)[..k]) <= n && (n > 0 ==> Strtol(Decimal(n)[..k]) > 0)
  {
    var (d, e) := (Decimal(n)[..k], Decimal(n)[k..]);
    DecimalIsDigits(n);
    assert Decimal(n) == d + e;
    DigitsSplit(d, e, 0);
    assert IsDigit(d[0]) && d[0] == Decimal(n)[0];
    assert DigitsValue(d, 0) == DigitsValue(d[1..], d[0] - 48);
  }

  lemma WholeNumber(n: nat)
    requires n <= LONG_MAX
    ensures Strtol(Decimal(n) + [CR, LF]) == n && Strtol(Decimal(n) + [CR]) == n
  {
    DecimalIsDigits(n);
    DigitsSplit(Decimal(n), [CR, LF], 0);
    DigitsSplit(Decimal(n), [CR], 0);
    assert IsDigit((Decimal(n) + [CR, LF])[0]) && IsDigit((Decimal(n) + [CR])[0]);
  }

  // ---------------------------------------------------------------- lines

  /** fgets stops just behind the first newline, if the line fits. */
  lemma {:induction false} LineEndsAt(file: seq<Byte>, pos: nat, room: nat, e: nat)
    requires pos < e <= |file| && e - pos <= room
    requires file[e - 1] == LF && forall i :: pos <= i < e - 1 ==> file[i] != LF
    ensures LineEnd(file, pos, room) == e
    decreases room
  {
    if pos < e - 1 {
      LineEndsAt(file, pos + 1, room - 1, e);
    }
  }

  lemma {:induction false} LineEndsWithFile(file: seq<Byte>, pos: nat, room: nat)
    requires pos <= |file| && |file| - pos <= room
    requires forall i :: pos <= i < |file| ==> file[i] != LF
    ensures LineEnd(file, pos, room) == |file|
    decreases room
  {
    if pos < |file| {
      LineEndsWithFile(file, pos + 1, room - 1);
    }
  }

  lemma HeadShape(mark: Byte, n: nat)
    requires mark != LF && n <= LONG_MAX
    ensures |Head(mark, n)| == |Decimal(n)| + 3 <= 23
    ensures forall i :: 0 <= i < |Head(mark, n)| - 1 ==> Head(mark, n)[i] != LF
    ensures Head(mark, n)[1..] == Decimal(n) + [CR, LF] && Head(mark, n)[0] == mark
    ensures Head(mark, n)[|Head(mark, n)| - 1] == LF
  {
    LongIsShort(n);
    DecimalIsDigits(n);
  }

  /** `part` stands in the file at pos. */
  ghost predicate At(file: seq<Byte>, pos: nat, part: seq<Byte>) {
    pos + |part| <= |file| && file[pos..pos + |part|] == part
  }

  /** The file ends inside `part`, which starts at pos. */
  ghost predicate CutIn(file: seq<Byte>, pos: nat, part: seq<Byte>) {
    pos <= |file| < pos + |part| && file[pos..] == part[..|file| - pos]
  }

  lemma AtSplit(file: seq<Byte>, pos: nat, a: seq<Byte>, b: seq<Byte>)
    ensures At(file, pos, a + b) <==> At(file, pos, a) && At(file, pos + |a|, b)
  {
    if At(file, pos, a + b) {
      assert file[pos..pos + |a|] == file[pos..pos + |a + b|][..|a|] == a;
      assert file[pos + |a|..pos + |a| + |b|] == file[pos..pos + |a + b|][|a|..] == b;
    }
    if At(file, pos, a) && At(file, pos + |a|, b) {
      assert file[pos..pos + |a| + |b|] == file[pos..pos + |a|] + file[pos + |a|..pos + |a| + |b|];
    }
  }

  lemma CutSplit(file: seq<Byte>, pos: nat, a: seq<Byte>, b: seq<Byte>)
    requires CutIn(file, pos, a + b)
    ensures CutIn(file, pos, a) || (At(file, pos, a) && CutIn(file, pos + |a|, b))
  {
    var n := |file| - pos;
    if n < |a| {
      assert (a + b)[..n] == a[..n];
    } else {
      assert (a + b)[..n] == a + b[..n - |a|];
      assert file[pos..pos + |a|] == file[pos..][..|a|];
      assert file[pos + |a|..] == file[pos..][|a|..];
    }
  }

  lemma LineOfHead(file: seq<Byte>, pos: nat, mark: Byte, n: nat)
    requires mark != LF && n <= LONG_MAX && At(file, pos, Head(mark, n))
    ensures LineEnd(file, pos, LINE_ROOM) == pos + |Head(mark, n)|
  {
    HeadShape(mark, n);
    var e := pos + |Head(mark, n)|;
    assert forall i :: pos <= i < e ==> file[i] == file[pos..e][i - pos];
    LineEndsAt(file, pos, LINE_ROOM, e);
  }

  /** Everything a reader sees of a whole head line. */
  lemma ReadHead(file: seq<Byte>, pos: nat, mark: Byte, n: nat)
    requires mark != LF && n <= LONG_MAX && At(file, pos, Head(mark, n))
    ensures var (next, h) := (LineEnd(file, pos, LINE_ROOM), Head(mark, n));
      && next == pos + |h| && |h| > 1 && file[pos..next] == h
      && h[0] == mark && h[1] != 0 && Strtol(h[1..]) == n
  {
    LineOfHead(file, pos, mark, n);
    HeadShape(mark, n);
    WholeNumber(n);
    DecimalIsDigits(n);
    assert Head(mark, n)[1] == Decimal(n)[0];
  }

  lemma LineOfCutHead(file: seq<Byte>, pos: nat, mark: Byte, n: nat)
    requires mark != LF && n <= LONG_MAX && CutIn(file, pos, Head(mark, n))
    ensures |file| - pos < LINE_ROOM
    ensures LineEnd(file, pos, LINE_ROOM) == |file|
    ensures forall i :: pos <= i < |file| ==> file[i] != LF
  {
    HeadShape(mark, n);
    assert forall i :: pos <= i < |file| ==> file[i] == file[pos..][i - pos];
    LineEndsWithFile(file, pos, LINE_ROOM);
  }

  /** The number read from a head line that was cut short. */
  lemma NumberOfCutHead(mark: Byte, n: nat, k: nat)
    requires mark != LF && n <= LONG_MAX && 1 < k < |Head(mark, n)|
    ensures var line := Head(mark, n)[..k];
      line[1] != 0 && 0 <= Strtol(line[1..]) <= n && (n > 0 ==> Strtol(line[1..]) > 0)
  {
    HeadShape(mark, n);
    DecimalIsDigits(n);
    var line := Head(mark, n)[..k];
    assert line[1..] == Head(mark, n)[1..][..k - 1] == (Decimal(n) + [CR, LF])[..k - 1];
    if k - 1 <= |Decimal(n)| {
      assert line[1..] == Decimal(n)[..k - 1];
      CutNumber(n, k - 1);
    } else {
      assert line[1..] == Decimal(n) + [CR];
      WholeNumber(n);
    }
    assert line[1] == Decimal(n)[0];
  }

  // ---------------------------------------------------------------- what was printed is read back

  /** What the types of argc (int) and of string lengths allow. */
  ghost predicate Printable(c: Command) {
    0 < |c| < 0x8000_0000 && PrintableArgs(c)
  }

  ghost predicate PrintableArgs(args: seq<Arg>) {
    forall i :: 0 <= i < |args| ==> |args[i]| <= LONG_MAX
  }

  lemma ReadArgBack(file: seq<Byte>, pos: nat, a: Arg)
    requires |a| <= LONG_MAX && At(file, pos, EncodeArg(a))
    ensures ReadArg(file, pos) == Got(a, pos + |EncodeArg(a)|)
  {
    var h := Head(DOLLAR, |a|);
    AtSplit(file, pos, h + a, [CR, LF]);
    AtSplit(file, pos, h, a);
    ReadHead(file, pos, DOLLAR, |a|);
  }

  lemma ReadArgCut(file: seq<Byte>, pos: nat, a: Arg)
    requires |a| <= LONG_MAX && CutIn(file, pos, EncodeArg(a))
    ensures ReadArg(file, pos) == Short
  {
    var h := Head(DOLLAR, |a|);
    assert EncodeArg(a) == h + (a + [CR, LF]);
    CutSplit(file, pos, h, a + [CR, LF]);
    if CutIn(file, pos, h) {
      LineOfCutHead(file, pos, DOLLAR, |a|);
      if pos < |file| {
        assert file[pos..][0] == DOLLAR;
      }
    } else {
      ReadHead(file, pos, DOLLAR, |a|);
    }
  }

  lemma {:induction false} ReadArgsBack(file: seq<Byte>, pos: nat, args: seq<Arg>)
    requires PrintableArgs(args) && At(file, pos, EncodeArgs(args))
    ensures ReadArgs(file, pos, |args|) == Got(args, pos + |EncodeArgs(args)|)
    decreases |args|
  {
    hide ReadArg, EncodeArg;
    if args != [] {
      AtSplit(file, pos, EncodeArg(args[0]), EncodeArgs(args[1..]));
      ReadArgBack(file, pos, args[0]);
      var next := pos + |EncodeArg(args[0])|;
      ReadArgsBack(file, next, args[1..]);
      MoreArgs(file, pos, next, args[0], |args|);
      assert [args[0]] + args[1..] == args;
    }
  }

  lemma MoreArgs(file: seq<Byte>, pos: nat, next: nat, a: Arg, argc: nat)
    requires pos <= |file| && next <= |file| && argc > 0 && ReadArg(file, pos) == Got(a, next)
    ensures ReadArgs(file, pos, argc) == Behind([a], ReadArgs(file, next, argc - 1))
  {
  }

  lemma NoMoreArgs(file: seq<Byte>, pos: nat, argc: nat)
    requires pos <= |file| && argc > 0 && ReadArg(file, pos) == Short
    ensures ReadArgs(file, pos, argc) == Short
  {
  }

  lemma {:induction false} ReadArgsCut(file: seq<Byte>, pos: nat, args: seq<Arg>)
    requires PrintableArgs(args) && CutIn(file, pos, EncodeArgs(args))
    ensures ReadArgs(file, pos, |args|) == Short
    decreases |args|
  {
    hide ReadArg, EncodeArg;
    CutSplit(file, pos, EncodeArg(args[0]), EncodeArgs(args[1..]));
    if CutIn(file, pos, EncodeArg(args[0])) {
      ReadArgCut(file, pos, args[0]);
      NoMoreArgs(file, pos, |args|);
    } else {
      var next := pos + |EncodeArg(args[0])|;
      ReadArgBack(file, pos, args[0]);
      ReadArgsCut(file, next, args[1..]);
      MoreArgs(file, pos, next, args[0], |args|);
    }
  }

  lemma ToIntSmall(v: int)
    requires 0 <= v < 0x8000_0000
    ensures ToInt(v) == v
  {
  }

  /** A command whose first line was read. */
  lemma FromHead(file: seq<Byte>, pos: nat, argc: nat, next: nat, line: seq<Byte>)
    requires 0 < argc < 0x8000_0000 && pos < next <= |file| && next == LineEnd(file, pos, LINE_ROOM)
    requires line == file[pos..next] && |line| > 1 && line[0] == STAR && line[1] != 0 && Strtol(line[1..]) == argc
    ensures ReadCommand(file, pos) == ReadArgs(file, next, argc)
  {
    ToIntSmall(argc);
  }

  lemma ReadCommandHead(file: seq<Byte>, pos: nat, argc: nat)
    requires 0 < argc < 0x8000_0000 && At(file, pos, Head(STAR, argc))
    ensures pos + |Head(STAR, argc)| <= |file|
    ensures ReadCommand(file, pos) == ReadArgs(file, pos + |Head(STAR, argc)|, argc)
  {
    hide ReadCommand, ReadArgs;
    ReadHead(file, pos, STAR, argc);
    FromHead(file, pos, argc, pos + |Head(STAR, argc)|, Head(STAR, argc));
  }

  lemma ReadCommandBack(file: seq<Byte>, pos: nat, c: Command)
    requires Printable(c) && At(file, pos, Encode(c))
    ensures ReadCommand(file, pos) == Got(c, pos + |Encode(c)|)
  {
    hide ReadCommand, ReadArgs, Head, EncodeArgs, PrintableArgs;
    var h := Head(STAR, |c|);
    AtSplit(file, pos, h, EncodeArgs(c));
    ReadCommandHead(file, pos, |c|);
    ReadArgsBack(file, pos + |h|, c);
  }

  lemma ReadCommandCut(file: seq<Byte>, pos: nat, c: Command)
    requires Printable(c) && CutIn(file, pos, Encode(c)) && pos < |file|
    ensures ReadCommand(file, pos) == Short
  {
    hide ReadCommand, ReadArgs, Head, EncodeArgs, PrintableArgs;
    var h := Head(STAR, |c|);
    CutSplit(file, pos, h, EncodeArgs(c));
    if CutIn(file, pos, h) {
      ReadHeadCut(file, pos, c);
    } else {
      ReadCommandHead(file, pos, |c|);
      ReadArgsCut(file, pos + |h|, c);
    }
  }

  /** A command cut in its first line: a wrong count of arguments may be read, but none of them is there. */
  lemma ReadHeadCut(file: seq<Byte>, pos: nat, c: Command)
    requires Printable(c) && CutIn(file, pos, Head(STAR, |c|)) && pos < |file|
    ensures ReadCommand(file, pos) == Short
  {
    LineOfCutHead(file, pos, STAR, |c|);
    var line := file[pos..|file|];
    assert line == file[pos..] == Head(STAR, |c|)[..|file| - pos];
    assert line[0] == STAR && line[|line| - 1] != LF;
    if |line| > 1 {
      NumberOfCutHead(STAR, |c|, |line|);
      var argc := Strtol(line[1..]);
      FromHead(file, pos, argc, |file|, line);
      assert ReadArg(file, |file|) == Short;
      NoMoreArgs(file, |file|, argc);
    }
  }

  // ---------------------------------------------------------------- recovery

  /** How many commands lie wholly inside the first n bytes of their log. */
  function Whole(cmds: seq<Command>, n: nat): (k: nat)
    ensures k <= |cmds|
  {
    if cmds == [] || n < |Encode(cmds[0])| then 0 else 1 + Whole(cmds[1..], n - |Encode(cmds[0])|)
  }

  ghost predicate AllPrintable(cmds: seq<Command>, known: Arg -> bool) {
    forall i :: 0 <= i < |cmds| ==> Printable(cmds[i]) && known(cmds[i][0])
  }

  /** What is left after the last whole command decides between a clean and an unexpected end. */
  function Recovered(file: seq<Byte>, pos: nat, clean: bool, cmds: seq<Command>, open: seq<Command> -> bool, loadTruncated: bool): Outcome
    requires pos <= |file|
  {
    if clean && !open(cmds) then Loaded(cmds, file) else Unexpected(file, pos, cmds, loadTruncated)
  }

  /** The file holds the first bytes of the log of cmds from pos on, and ends there. */
  ghost predicate Holds(file: seq<Byte>, pos: nat, cmds: seq<Command>) {
    pos <= |file| <= pos + |Log(cmds)| && file[pos..] == Log(cmds)[..|file| - pos]
  }

  lemma HoldsSplit(file: seq<Byte>, pos: nat, cmds: seq<Command>)
    requires Holds(file, pos, cmds) && cmds != []
    ensures var e := Encode(cmds[0]);
      if |file| - pos < |e| then CutIn(file, pos, e) else At(file, pos, e) && Holds(file, pos + |e|, cmds[1..])
  {
    var (n, e) := (|file| - pos, Encode(cmds[0]));
    if n < |e| {
      assert (e + Log(cmds[1..]))[..n] == e[..n];
    } else {
      assert file[pos..pos + |e|] == file[pos..][..|e|] == Log(cmds)[..|e|] == e;
      assert file[pos + |e|..] == file[pos..][|e|..] == Log(cmds[1..])[..n - |e|];
    }
  }

  lemma WholeNone(cmds: seq<Command>, n: nat)
    requires n == 0 || cmds == [] || n < |Encode(cmds[0])|
    ensures Whole(cmds, n) == 0
  {
  }

  lemma WholeStep(cmds: seq<Command>, n: nat)
    requires cmds != [] && n >= |Encode(cmds[0])|
    ensures var k := Whole(cmds[1..], n - |Encode(cmds[0])|);
      Whole(cmds, n) == k + 1 && [cmds[0]] + cmds[1..][..k] == cmds[..k + 1]
      && Log(cmds[..k + 1]) == Encode(cmds[0]) + Log(cmds[1..][..k])
  {
    var k := Whole(cmds[1..], n - |Encode(cmds[0])|);
    assert cmds[..k + 1][1..] == cmds[1..][..k];
  }

  /** Loading goes on behind a command that was read. */
  lemma LoadNext(file: seq<Byte>, pos: nat, done: seq<Command>, c: Command, next: nat,
                 known: Arg -> bool, open: seq<Command> -> bool, loadTruncated: bool)
    requires pos <= |file| && ReadCommand(file, pos) == Got(c, next) && known(c[0])
    ensures LoadFrom(file, pos, done, known, open, loadTruncated)
         == LoadFrom(file, next, done + [c], known, open, loadTruncated)
  {
  }

  /** Loading stops at the end of the file or inside a command. */
  lemma LoadStops(file: seq<Byte>, pos: nat, done: seq<Command>,
                  known: Arg -> bool, open: seq<Command> -> bool, loadTruncated: bool)
    requires pos <= |file| && (pos == |file| || ReadCommand(file, pos) == Short)
    ensures LoadFrom(file, pos, done, known, open, loadTruncated)
         == Recovered(file, pos, pos == |file|, done, open, loadTruncated)
  {
  }

  lemma {:induction false} LoadCutLog(file: seq<Byte>, pos: nat, done: seq<Command>, cmds: seq<Command>,
                                      known: Arg -> bool, open: seq<Command> -> bool, loadTruncated: bool)
    requires AllPrintable(cmds, known) && Holds(file, pos, cmds)
    ensures var k := Whole(cmds, |file| - pos); var last := pos + |Log(cmds[..k])|;
      && last <= |file|
      && LoadFrom(file, pos, done, known, open, loadTruncated)
         == Recovered(file, last, last == |file|, done + cmds[..k], open, loadTruncated)
    decreases |cmds|
  {
    hide LoadFrom, ReadCommand, Encode, Whole, Recovered;
    assert done + cmds[..0] == done;
    if |file| == pos {
      LoadStops(file, pos, done, known, open, loadTruncated);
      WholeNone(cmds, 0);
    } else {
      var e := Encode(cmds[0]);
      HoldsSplit(file, pos, cmds);
      if |file| - pos < |e| {
        ReadCommandCut(file, pos, cmds[0]);
        LoadStops(file, pos, done, known, open, loadTruncated);
        WholeNone(cmds, |file| - pos);
      } else {
        ReadCommandBack(file, pos, cmds[0]);
        LoadNext(file, pos, done, cmds[0], pos + |e|, known, open, loadTruncated);
        LoadCutLog(file, pos + |e|, done + [cmds[0]], cmds[1..], known, open, loadTruncated);
        WholeStep(cmds, |file| - pos);
        var k := Whole(cmds[1..], |file| - pos - |e|);
        assert done + [cmds[0]] + cmds[1..][..k] == done + cmds[..k + 1];
      }
    }
  }

  lemma {:induction false} WholePrefix(cmds: seq<Command>, n: nat)
    requires n <= |Log(cmds)|
    ensures var k := Whole(cmds, n); Log(cmds[..k]) <= Log(cmds) && |Log(cmds[..k])| <= n
    ensures var k := Whole(cmds, n); k < |cmds| ==> n < |Log(cmds[..k + 1])|
    ensures n == |Log(cmds)| ==> Log(cmds[..Whole(cmds, n)]) == Log(cmds)
    decreases |cmds|
  {
    hide Encode;
    if cmds != [] {
      var e := Encode(cmds[0]);
      if n >= |e| {
        WholePrefix(cmds[1..], n - |e|);
        var k := Whole(cmds[1..], n - |e|);
        assert cmds[..k + 1][1..] == cmds[1..][..k];
        if k + 1 < |cmds| {
          assert cmds[..k + 2][1..] == cmds[1..][..k + 1];
        }
      } else {
        assert cmds[..1][1..] == [];
        assert Log(cmds[..1]) == e;
      }
    }
  }

  /**
   A log cut anywhere loads as exactly the commands that were wholly written, and is cut back to
   them; it is never taken for a file with a bad format.
   */
  lemma CutLogRecovers(cmds: seq<Command>, n: nat, known: Arg -> bool, open: seq<Command> -> bool)
    requires AllPrintable(cmds, known) && 0 < n <= |Log(cmds)|
    ensures var k := Whole(cmds, n);
      && |Log(cmds[..k])| <= n && (k < |cmds| ==> n < |Log(cmds[..k + 1])|)
      && Load(Log(cmds)[..n], known, open, true) == Loaded(cmds[..k], Log(cmds[..k]))
      && Load(Log(cmds)[..n], known, open, false)
         == if n == |Log(cmds[..k])| && !open(cmds[..k]) then Loaded(cmds[..k], Log(cmds[..k])) else UnexpectedEnd(cmds[..k])
  {
    hide LoadFrom, Whole, Log, AllPrintable;
    var (file, k) := (Log(cmds)[..n], Whole(cmds, n));
    assert file[0..] == file;
    assert [] + cmds[..k] == cmds[..k];
    LoadCutLog(file, 0, [], cmds, known, open, true);
    LoadCutLog(file, 0, [], cmds, known, open, false);
    WholePrefix(cmds, n);
    var m := |Log(cmds[..k])|;
    assert file[..m] == Log(cmds)[..m] == Log(cmds[..k]);
    assert m == n ==> file == file[..m];
  }

  /** A log that was not cut loads as the commands it was printed from. */
  lemma RoundTrip(cmds: seq<Command>, known: Arg -> bool, open: seq<Command> -> bool)
    requires AllPrintable(cmds, known) && cmds != [] && !open(cmds)
    ensures forall t :: Load(Log(cmds), known, open, t) == Loaded(cmds, Log(cmds))
  {
    var n := |Log(cmds)|;
    WholeLog(cmds);
    assert Log(cmds)[..n] == Log(cmds) && cmds[..|cmds|] == cmds;
    CutLogRecovers(cmds, n, known, open);
  }

  lemma {:induction false} WholeLog(cmds: seq<Command>)
    ensures Whole(cmds, |Log(cmds)|) == |cmds|
  {
    if cmds != [] {
      WholeLog(cmds[1..]);
    }
  }

  // ---------------------------------------------------------------- damaged files

  /** Loading runs through a log and goes on behind it, whatever follows. */
  lemma {:induction false} LoadThrough(file: seq<Byte>, pos: nat, done: seq<Command>, cmds: seq<Command>,
                                       known: Arg -> bool, open: seq<Command> -> bool, loadTruncated: bool)
    requires AllPrintable(cmds, known) && At(file, pos, Log(cmds))
    ensures LoadFrom(file, pos, done, known, open, loadTruncated)
         == LoadFrom(file, pos + |Log(cmds)|, done + cmds, known, open, loadTruncated)
    decreases |cmds|
  {
    hide LoadFrom, ReadCommand, Encode, Printable;
    if cmds == [] {
      assert done + cmds == done;
    } else {
      var e := Encode(cmds[0]);
      AtSplit(file, pos, e, Log(cmds[1..]));
      ReadCommandBack(file, pos, cmds[0]);
      LoadNext(file, pos, done, cmds[0], pos + |e|, known, open, loadTruncated);
      LoadThrough(file, pos + |e|, done + [cmds[0]], cmds[1..], known, open, loadTruncated);
      assert done + [cmds[0]] + cmds[1..] == done + cmds;
    }
  }

  /** So what follows a log decides: a broken command after it is not mistaken for an early end. */
  lemma LoadBehind(cmds: seq<Command>, tail: seq<Byte>, known: Arg -> bool, open: seq<Command> -> bool, loadTruncated: bool)
    requires AllPrintable(cmds, known) && tail != []
    ensures var (file, pos) := (Log(cmds) + tail, |Log(cmds)|);
      && Load(file, known, open, loadTruncated) == LoadFrom(file, pos, cmds, known, open, loadTruncated)
      && (ReadCommand(file, pos).Bad? ==> Load(file, known, open, loadTruncated) == FormatError(cmds))
      && (ReadCommand(file, pos).Broken? ==> Load(file, known, open, loadTruncated) == ReadError(cmds))
  {
    hide ReadCommand, Log, AllPrintable;
    var file := Log(cmds) + tail;
    assert file[0..0 + |Log(cmds)|] == Log(cmds);
    LoadThrough(file, 0, [], cmds, known, open, loadTruncated);
    assert [] + cmds == cmds;
  }

  /** A log followed by anything but a star is a format error, with or without aof-load-truncated. */
  lemma BadMarkIsFormatError(cmds: seq<Command>, b: Byte, rest: seq<Byte>, known: Arg -> bool, open: seq<Command> -> bool)
    requires AllPrintable(cmds, known) && b != STAR
    ensures forall t :: Load(Log(cmds) + [b] + rest, known, open, t) == FormatError(cmds)
  {
    hide Log, AllPrintable, Load, LineEnd;
    var (file, pos) := (Log(cmds) + ([b] + rest), |Log(cmds)|);
    assert file == Log(cmds) + [b] + rest && file[pos] == b;
    assert ReadCommand(file, pos).Bad?;
    forall t ensures Load(file, known, open, t) == FormatError(cmds) {
      LoadBehind(cmds, [b] + rest, known, open, t);
    }
  }

  /** The text of a line that fits the buffer behind its mark. */
  ghost predicate LineText(text: seq<Byte>) {
    0 < |text| <= LINE_ROOM - 2 && forall i :: 0 <= i < |text| ==> text[i] != LF
  }

  /** The line fgets reads where mark, text and a newline stand. */
  lemma LineIs(before: seq<Byte>, mark: Byte, text: seq<Byte>, rest: seq<Byte>)
    requires LineText(text) && mark != LF
    ensures var (file, pos) := (before + ([mark] + text + [LF] + rest), |before|);
      LineEnd(file, pos, LINE_ROOM) == pos + |text| + 2 && file[pos..pos + |text| + 2] == [mark] + text + [LF]
  {
    var (file, pos, line) := (before + ([mark] + text + [LF] + rest), |before|, [mark] + text + [LF]);
    assert file[pos..pos + |line|] == line;
    assert forall i :: pos <= i < pos + |line| ==> file[i] == line[i - pos];
    LineEndsAt(file, pos, LINE_ROOM, pos + |line|);
  }

  /** A command whose count of arguments atoi reads as less than one is a format error, and one whose
      count starts with a zero byte a read error. */
  lemma BadCountIsFormatError(cmds: seq<Command>, text: seq<Byte>, rest: seq<Byte>, known: Arg -> bool, open: seq<Command> -> bool)
    requires AllPrintable(cmds, known) && LineText(text) && ToInt(Strtol(text + [LF])) < 1
    ensures forall t :: Load(Log(cmds) + [STAR] + text + [LF] + rest, known, open, t)
                     == if text[0] == 0 then ReadError(cmds) else FormatError(cmds)
  {
    hide Log, AllPrintable, Load, LineEnd, ToInt, Strtol;
    var tail := [STAR] + text + [LF] + rest;
    var (file, pos, line) := (Log(cmds) + tail, |Log(cmds)|, [STAR] + text + [LF]);
    assert file == Log(cmds) + [STAR] + text + [LF] + rest;
    LineIs(Log(cmds), STAR, text, rest);
    assert line[1..] == text + [LF] && line[1] == text[0] && line[|line| - 1] == LF;
    assert if text[0] == 0 then ReadCommand(file, pos).Broken? else ReadCommand(file, pos).Bad?;
    forall t ensures Load(file, known, open, t) == if text[0] == 0 then ReadError(cmds) else FormatError(cmds) {
      LoadBehind(cmds, tail, known, open, t);
    }
  }

  /** In particular a command that announces no argument, or a negative number of them. */
  lemma NoArgumentsIsFormatError(cmds: seq<Command>, n: nat, rest: seq<Byte>, known: Arg -> bool, open: seq<Command> -> bool)
    requires AllPrintable(cmds, known) && n <= 0x8000_0000
    ensures forall t :: Load(Log(cmds) + [STAR] + ([45] + Decimal(n) + [CR]) + [LF] + rest, known, open, t) == FormatError(cmds)
    ensures forall t :: Load(Log(cmds) + [STAR] + (Decimal(0) + [CR]) + [LF] + rest, known, open, t) == FormatError(cmds)
  {
    hide Log, AllPrintable, Load, Decimal;
    NegativeNumber(n);
    NegativeText(n);
    BadCountIsFormatError(cmds, [45] + Decimal(n) + [CR], rest, known, open);
    WholeNumber(0);
    DecimalIsDigits(0);
    NegativeText(0);
    assert Decimal(0) + [CR] + [LF] == Decimal(0) + [CR, LF];
    BadCountIsFormatError(cmds, Decimal(0) + [CR], rest, known, open);
  }

  lemma NegativeText(n: nat)
    requires n <= LONG_MAX
    ensures LineText([45] + Decimal(n) + [CR]) && LineText(Decimal(n) + [CR])
  {
    LongIsShort(n);
    DecimalIsDigits(n);
  }

  lemma NegativeNumber(n: nat)
    requires n <= 0x8000_0000
    ensures ToInt(Strtol([45] + Decimal(n) + [CR] + [LF])) < 1
  {
    var (d, line) := (Decimal(n), [45] + Decimal(n) + [CR] + [LF]);
    DecimalIsDigits(n);
    assert line[1..] == d + [CR, LF];
    DigitsSplit(d, [CR, LF], 0);
    assert DigitsValue([CR, LF], n) == n;
    assert Strtol(line) == 0 - n;
  }

  /** An argument that does not start with a dollar sign is a format error, after any whole arguments. */
  lemma BadArgumentIsFormatError(cmds: seq<Command>, argc: nat, args: seq<Arg>, b: Byte, rest: seq<Byte>,
                                 known: Arg -> bool, open: seq<Command> -> bool)
    requires AllPrintable(cmds, known) && |args| < argc < 0x8000_0000 && PrintableArgs(args) && b != DOLLAR
    ensures forall t :: Load(Log(cmds) + Head(STAR, argc) + EncodeArgs(args) + [b] + rest, known, open, t) == FormatError(cmds)
  {
    hide Log, AllPrintable, Load, Head, EncodeArgs, ReadCommand, ReadArgs;
    var (h, a) := (Head(STAR, argc), EncodeArgs(args));
    var tail := h + a + [b] + rest;
    var (file, pos) := (Log(cmds) + tail, |Log(cmds)|);
    assert file == Log(cmds) + h + a + [b] + rest;
    assert file[pos..pos + |h|] == h && file[pos + |h|..pos + |h| + |a|] == a && file[pos + |h| + |a|] == b;
    ReadCommandHead(file, pos, argc);
    BadArgument(file, pos + |h|, argc, args);
    assert tail[|h| + |a|] == b;
    forall t ensures Load(file, known, open, t) == FormatError(cmds) {
      LoadBehind(cmds, tail, known, open, t);
    }
  }

  lemma {:induction false} BadArgument(file: seq<Byte>, pos: nat, argc: nat, args: seq<Arg>)
    requires |args| < argc && PrintableArgs(args) && At(file, pos, EncodeArgs(args))
    requires pos + |EncodeArgs(args)| < |file| && file[pos + |EncodeArgs(args)|] != DOLLAR
    ensures ReadArgs(file, pos, argc) == Bad
    decreases |args|
  {
    hide EncodeArg, LineEnd;
    if args == [] {
      assert ReadArg(file, pos) == Bad;
    } else {
      var next := pos + |EncodeArg(args[0])|;
      AtSplit(file, pos, EncodeArg(args[0]), EncodeArgs(args[1..]));
      ReadArgBack(file, pos, args[0]);
      BadArgument(file, next, argc - 1, args[1..]);
      MoreArgs(file, pos, next, args[0], argc);
    }
  }

  /** A whole command that is not in the table stops the loader there. */
  lemma UnknownStops(cmds: seq<Command>, c: Command, rest: seq<Byte>, known: Arg -> bool, open: seq<Command> -> bool)
    requires AllPrintable(cmds, known) && Printable(c) && !known(c[0])
    ensures forall t :: Load(Log(cmds) + Encode(c) + rest, known, open, t) == UnknownCommand(cmds)
  {
    hide Log, AllPrintable, Load, Encode, ReadCommand, PrintableArgs;
    var tail := Encode(c) + rest;
    var (file, pos) := (Log(cmds) + tail, |Log(cmds)|);
    assert file == Log(cmds) + Encode(c) + rest;
    assert file[pos..pos + |Encode(c)|] == Encode(c);
    ReadCommandBack(file, pos, c);
    EncodeNotEmpty(c);
    forall t ensures Load(file, known, open, t) == UnknownCommand(cmds) {
      LoadBehind(cmds, tail, known, open, t);
    }
  }

  lemma EncodeNotEmpty(c: Command)
    ensures |Encode(c)| > 0
  {
  }

  // ---------------------------------------------------------------- any file that loads stays loadable

  lemma {:induction false} LineEndLocal(file: seq<Byte>, n: nat, pos: nat, room: nat)
    requires pos <= n <= |file| && LineEnd(file, pos, room) <= n
    ensures LineEnd(file[..n], pos, room) == LineEnd(file, pos, room)
    decreases |file| - pos
  {
    if room > 0 && pos < n && file[pos] != LF {
      LineEndLocal(file, n, pos + 1, room - 1);
    }
  }

  /** Reading what lies before n does not depend on what follows. */
  lemma ReadArgLocal(file: seq<Byte>, n: nat, pos: nat)
    requires pos <= n <= |file| && ReadArg(file, pos).Got? && ReadArg(file, pos).next <= n
    ensures ReadArg(file[..n], pos) == ReadArg(file, pos)
  {
    var next := LineEnd(file, pos, LINE_ROOM);
    LineEndLocal(file, n, pos, LINE_ROOM);
    assert file[..n][pos..next] == file[pos..next];
    var len := ToULong(Strtol(file[pos..next][1..]));
    assert file[..n][next..next + len] == file[next..next + len];
  }

  lemma {:induction false} ReadArgsLocal(file: seq<Byte>, n: nat, pos: nat, argc: nat)
    requires pos <= n <= |file| && ReadArgs(file, pos, argc).Got? && ReadArgs(file, pos, argc).next <= n
    ensures ReadArgs(file[..n], pos, argc) == ReadArgs(file, pos, argc)
    decreases argc
  {
    hide ReadArg;
    if argc > 0 {
      ReadArgLocal(file, n, pos);
      ReadArgsLocal(file, n, ReadArg(file, pos).next, argc - 1);
    }
  }

  lemma ReadCommandLocal(file: seq<Byte>, n: nat, pos: nat)
    requires pos <= n <= |file| && ReadCommand(file, pos).Got? && ReadCommand(file, pos).next <= n
    ensures ReadCommand(file[..n], pos) == ReadCommand(file, pos)
  {
    hide ReadArgs, Strtol, ToInt;
    var next := LineEnd(file, pos, LINE_ROOM);
    var line := file[pos..next];
    var argc := ToInt(Strtol(line[1..]));
    assert ReadCommand(file, pos) == ReadArgs(file, next, argc);
    LineEndLocal(file, n, pos, LINE_ROOM);
    ReadArgsLocal(file, n, next, argc);
    assert file[..n][pos..next] == line;
  }

  lemma {:induction false} TruncationIsStable(file: seq<Byte>, pos: nat, done: seq<Command>,
                                              known: Arg -> bool, open: seq<Command> -> bool)
    requires pos <= |file| && LoadFrom(file, pos, done, known, open, true).Loaded?
    ensures var r := LoadFrom(file, pos, done, known, open, true);
      && pos <= |r.file| && r.file <= file
      && LoadFrom(r.file, pos, done, known, open, true) == r
      && LoadFrom(r.file, pos, done, known, open, false) == if open(r.cmds) then UnexpectedEnd(r.cmds) else r
    decreases |file| - pos
  {
    hide ReadCommand;
    var r := LoadFrom(file, pos, done, known, open, true);
    match ReadCommand(file, pos)
    case Got(c, next) =>
      TruncationIsStable(file, next, done + [c], known, open);
      assert r.file == file[..|r.file|];
      ReadCommandLocal(file, |r.file|, pos);
    case Short =>
      assert r.file == file[..pos] && file[..pos][..pos] == file[..pos];
      NothingLeft(file[..pos]);
    case End =>
      assert pos == |file| && file[..pos] == file by { EndIsEnd(file, pos); }
      NothingLeft(file);
  }

  lemma NothingLeft(file: seq<Byte>)
    ensures ReadCommand(file, |file|) == End
  {
  }

  lemma {:induction false} EndIsEnd(file: seq<Byte>, pos: nat)
    requires pos <= |file| && ReadCommand(file, pos) == End
    ensures pos == |file|
  {
  }

  /** Whatever was in the file: once cut back by one load, it loads again, whole, as the same commands. */
  lemma TruncatedFileReloads(file: seq<Byte>, known: Arg -> bool, open: seq<Command> -> bool)
    requires Load(file, known, open, true).Loaded?
    ensures var r := Load(file, known, open, true);
      && r.file <= file
      && (r.file != [] ==> Load(r.file, known, open, true) == r)
      && (r.file != [] && !open(r.cmds) ==> Load(r.file, known, open, false) == r)
  {
    TruncationIsStable(file, 0, [], known, open);
  }
}
