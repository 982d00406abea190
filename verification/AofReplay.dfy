/**
 What the append only file means. Commands are logged without the database they ran on; a SELECT
 is put in front of a command only when the database differs from that of the command logged
 before. Replaying the file must still run every command on its own database, also in a file that
 a background rewrite put together from a snapshot and two streams.
 */
module AofReplay {
  import opened Common
  import opened AofFormat
  import AofFlush
  import AofRewrite

  /** A write command and the database it ran on. */
  datatype Op = Op(db: nat, c: Command)

  const SELECT: Arg := [83, 69, 76, 69, 67, 84]

  /** Command names are looked up without regard to case. */
  predicate IsSelectName(a: Arg) {
    |a| == 6 && forall i :: 0 <= i < 6 ==> a[i] == SELECT[i] || a[i] == SELECT[i] + 32
  }

  function Select(db: nat): Command {
    [SELECT, Decimal(db)]
  }

  // ---------------------------------------------------------------- feeding

  /** What is logged for an operation while `selected` is the database last selected in the log. */
  function Raw(selected: int, op: Op): seq<Command> {
    if op.db != selected then [Select(op.db), op.c] else [op.c]
  }

  /** Operations are logged one by one; at times the parent forgets which database it selected last. */
  datatype Event = Do(op: Op) | ForgetSelected

  function RawAll(selected: int, es: seq<Event>): seq<Command>
    decreases |es|
  {
    if es == [] then []
    else if es[0].ForgetSelected? then RawAll(-1, es[1..])
    else Raw(selected, es[0].op) + RawAll(es[0].op.db, es[1..])
  }

  function Ops(es: seq<Event>): seq<Op> {
    if es == [] then []
    else if es[0].ForgetSelected? then Ops(es[1..])
    else [es[0].op] + Ops(es[1..])
  }

  class Feeder {
    var selectedDb: int
    var aofOn: bool
    var childActive: bool
    var aofBuf: seq<Byte>
    const rewriteBuf: AofRewrite.RewriteBuffer

    constructor (rewriteBuf: AofRewrite.RewriteBuffer)
      ensures selectedDb == -1 && !aofOn && !childActive && aofBuf == [] && this.rewriteBuf == rewriteBuf
    {
      selectedDb, aofOn, childActive, aofBuf, this.rewriteBuf := -1, false, false, [], rewriteBuf;
    }

    /** feedAppendOnlyFile for a command that needs no translation. */
    method Feed(dictid: nat, argv: Command)
      requires rewriteBuf.Valid()
      modifies this`selectedDb, this`aofBuf, rewriteBuf
      ensures rewriteBuf.Valid() && selectedDb == dictid
      ensures var bytes := Log(Raw(old(selectedDb), Op(dictid, argv)));
        && aofBuf == (if aofOn then old(aofBuf) + bytes else old(aofBuf))
        && AofRewrite.Contents(rewriteBuf.blocks)
           == old(AofRewrite.Contents(rewriteBuf.blocks)) + (if childActive then bytes else [])
    {
      hide Encode, AofRewrite.Contents;
      var buf := [];
      if dictid != selectedDb {
        var seldb := Decimal(dictid);
        // "*2\r\n", "$6\r\nSELECT\r\n", then the length and the digits of the number
        buf := [STAR, 50, CR, LF] + ([DOLLAR, 54, CR, LF] + SELECT + [CR, LF])
             + ([DOLLAR] + Decimal(|seldb|) + [CR, LF] + seldb + [CR, LF]);
        SelectBytes(dictid);
        selectedDb := dictid;
      }
      ghost var front := buf;
      buf := CatAppendOnlyGenericCommand(buf, argv);
      LogOne(argv);
      LogTwo(Select(dictid), argv);
      assert [] + Encode(argv) == Encode(argv);
      if aofOn {
        aofBuf := aofBuf + buf;
      }
      if childActive {
        rewriteBuf.Append(buf);
      }
    }
  }

  lemma EncodeTwo(a: Arg, b: Arg)
    ensures Encode([a, b]) == Head(STAR, 2) + EncodeArg(a) + EncodeArg(b)
  {
    hide EncodeArg, Head;
    var both: Command, last: Command := [a, b], [b];
    assert both[1..] == last && last[1..] == [];
    assert EncodeArgs(last) == EncodeArg(b) + [] == EncodeArg(b);
    assert Head(STAR, 2) + (EncodeArg(a) + EncodeArg(b)) == Head(STAR, 2) + EncodeArg(a) + EncodeArg(b);
  }

  lemma SelectBytes(db: nat)
    ensures [STAR, 50, CR, LF] + ([DOLLAR, 54, CR, LF] + SELECT + [CR, LF])
          + ([DOLLAR] + Decimal(|Decimal(db)|) + [CR, LF] + Decimal(db) + [CR, LF]) == Encode(Select(db))
  {
    hide Encode;
    var d := Decimal(db);
    EncodeTwo(SELECT, d);
    assert Head(STAR, 2) == [STAR, 50, CR, LF] by { assert Decimal(2) == [50]; }
    assert EncodeArg(SELECT) == [DOLLAR, 54, CR, LF] + SELECT + [CR, LF] by { assert Decimal(6) == [54]; }
    assert EncodeArg(d) == [DOLLAR] + Decimal(|d|) + [CR, LF] + d + [CR, LF];
  }

  lemma LogOne(c: Command)
    ensures Log([c]) == Encode(c)
  {
    assert [c][1..] == [];
  }

  lemma LogTwo(b: Command, c: Command)
    ensures Log([b, c]) == Encode(b) + Encode(c)
  {
    assert [b, c][1..] == [c];
    LogOne(c);
  }

  // ---------------------------------------------------------------- replaying

  /** The operations a list of logged commands stands for, replayed from database db on. */
  function Replay(cmds: seq<Command>, db: nat): seq<Op>
    requires forall i :: 0 <= i < |cmds| ==> |cmds[i]| > 0
    decreases |cmds|
  {
    if cmds == [] then []
    else if IsSelectName(cmds[0][0]) then Replay(cmds[1..], Selected(cmds[0], db))
    else [Op(db, cmds[0])] + Replay(cmds[1..], db)
  }

  function Selected(c: Command, db: nat): nat {
    if |c| == 2 && Strtol(c[1]) >= 0 then Strtol(c[1]) else db
  }

  /** The database selected after replaying. */
  function Left(cmds: seq<Command>, db: nat): nat
    requires forall i :: 0 <= i < |cmds| ==> |cmds[i]| > 0
    decreases |cmds|
  {
    if cmds == [] then db
    else Left(cmds[1..], if IsSelectName(cmds[0][0]) then Selected(cmds[0], db) else db)
  }

  /** A write command that can be logged: it has a name, which is not SELECT. */
  ghost predicate Loggable(op: Op) {
    |op.c| > 0 && !IsSelectName(op.c[0]) && op.db <= LONG_MAX
  }

  ghost predicate AllLoggable(es: seq<Event>) {
    forall i :: 0 <= i < |es| && es[i].Do? ==> Loggable(es[i].op)
  }

  lemma NumberBack(n: nat)
    requires n <= LONG_MAX
    ensures Strtol(Decimal(n)) == n
  {
    DecimalIsDigits(n);
  }

  lemma {:induction false} ReplayAppend(a: seq<Command>, b: seq<Command>, db: nat)
    requires forall i :: 0 <= i < |a| ==> |a[i]| > 0
    requires forall i :: 0 <= i < |b| ==> |b[i]| > 0
    ensures forall i :: 0 <= i < |a + b| ==> |(a + b)[i]| > 0
    ensures Replay(a + b, db) == Replay(a, db) + Replay(b, Left(a, db))
    ensures Left(a + b, db) == Left(b, Left(a, db))
    decreases |a|
  {
    if a == [] {
      assert a + b == b;
    } else {
      assert (a + b)[1..] == a[1..] + b;
      ReplayAppend(a[1..], b, if IsSelectName(a[0][0]) then Selected(a[0], db) else db);
    }
  }

  /** One operation is replayed on its own database and leaves it selected. */
  lemma ReplayRaw(selected: int, op: Op, db: nat)
    requires Loggable(op) && (selected == -1 || selected == db)
    ensures forall i :: 0 <= i < |Raw(selected, op)| ==> |Raw(selected, op)[i]| > 0
    ensures Replay(Raw(selected, op), db) == [op] && Left(Raw(selected, op), db) == op.db
  {
    NumberBack(op.db);
    var s := Select(op.db);
    assert [s, op.c][1..] == [op.c] && [op.c][1..] == [];
    assert IsSelectName(s[0]) && Selected(s, db) == op.db;
    assert Replay([op.c], op.db) == [op] + Replay([], op.db);
    assert Left([op.c], op.db) == Left([], op.db);
  }

  /**
   Leaving SELECTs out is sound: replaying what was logged gives back every operation on its own
   database, wherever the parent forgot what it had selected.
   */
  lemma {:induction false} SelectElisionIsSound(selected: int, es: seq<Event>, db: nat)
    requires AllLoggable(es) && (selected == -1 || selected == db)
    ensures forall i :: 0 <= i < |RawAll(selected, es)| ==> |RawAll(selected, es)[i]| > 0
    ensures Replay(RawAll(selected, es), db) == Ops(es)
    decreases |es|
  {
    hide Replay, Raw, Loggable, Left;
    if es == [] {
      NothingToReplay(db);
    } else if es[0].ForgetSelected? {
      SelectElisionIsSound(-1, es[1..], db);
    } else {
      var op := es[0].op;
      ReplayRaw(selected, op, db);
      SelectElisionIsSound(op.db, es[1..], op.db);
      ReplayAppend(Raw(selected, op), RawAll(op.db, es[1..]), db);
    }
  }

  lemma NothingToReplay(db: nat)
    ensures Replay([], db) == []
  {
  }

  // ---------------------------------------------------------------- a rewritten file rebuilds the dataset

  function Exec<S>(s: S, ops: seq<Op>, run: (S, Op) -> S): S
    decreases |ops|
  {
    if ops == [] then s else Exec(run(s, ops[0]), ops[1..], run)
  }

  lemma {:induction false} ExecAppend<S>(s: S, a: seq<Op>, b: seq<Op>, run: (S, Op) -> S)
    ensures Exec(s, a + b, run) == Exec(Exec(s, a, run), b, run)
    decreases |a|
  {
    if a == [] {
      assert a + b == b;
    } else {
      assert (a + b)[1..] == a[1..] + b;
      ExecAppend(run(s, a[0]), a[1..], b, run);
    }
  }

  /** A rewrite whose child's last read emptied the pipe installs the log of the snapshot and of all fed since. */
  lemma InstalledIsLog(
    snapshot: seq<Command>, raw: seq<Command>, before: seq<AofRewrite.Step>, mid: AofRewrite.Rewrite,
    after: seq<AofRewrite.Step>, r: AofRewrite.Rewrite)
    requires AofRewrite.IsRun(AofRewrite.FORK, before, mid) && mid.phase == AofRewrite.Acked
    requires AofRewrite.IsRun(AofRewrite.Apply(mid, AofRewrite.FinalRead(|mid.pipe|)), after, r)
    requires r.fed == Log(raw)
    ensures AofRewrite.Installed(Log(snapshot), r) == Log(snapshot + raw)
  {
    hide AofRewrite.IsRun, AofRewrite.Installed, Log;
    AofRewrite.DrainedRunIsComplete(Log(snapshot), before, mid, after, r);
    AofFlush.LogAppend(snapshot, raw);
  }

  /**
   However a rewrite interleaved: if the child's snapshot rebuilds the dataset of the fork and its
   last read emptied the pipe, then the installed file loads, whole, and replaying it rebuilds the
   dataset with every operation since the fork applied to its own database.
   */
  lemma InstalledFileRebuilds<S>(
    snapshot: seq<Command>, es: seq<Event>, before: seq<AofRewrite.Step>, mid: AofRewrite.Rewrite,
    after: seq<AofRewrite.Step>, r: AofRewrite.Rewrite,
    empty: S, forked: S, run: (S, Op) -> S, known: Arg -> bool, open: seq<Command> -> bool)
    requires AofRewrite.IsRun(AofRewrite.FORK, before, mid) && mid.phase == AofRewrite.Acked
    requires AofRewrite.IsRun(AofRewrite.Apply(mid, AofRewrite.FinalRead(|mid.pipe|)), after, r)
    requires AllLoggable(es) && r.fed == Log(RawAll(-1, es))
    requires forall i :: 0 <= i < |snapshot| ==> |snapshot[i]| > 0
    requires Exec(empty, Replay(snapshot, 0), run) == forked
    requires var cmds := snapshot + RawAll(-1, es); AllPrintable(cmds, known) && cmds != [] && !open(cmds)
    ensures var (file, cmds) := (AofRewrite.Installed(Log(snapshot), r), snapshot + RawAll(-1, es));
      && (forall t :: Load(file, known, open, t) == Loaded(cmds, file))
      && (forall i :: 0 <= i < |cmds| ==> |cmds[i]| > 0)
      && Exec(empty, Replay(cmds, 0), run) == Exec(forked, Ops(es), run)
  {
    hide Load, Replay, RawAll, Ops, AllPrintable, AofRewrite.IsRun, AofRewrite.Installed, AllLoggable, Left, Exec, Log;
    var raw := RawAll(-1, es);
    InstalledIsLog(snapshot, raw, before, mid, after, r);
    RoundTrip(snapshot + raw, known, open);
    SelectElisionIsSound(-1, es, Left(snapshot, 0));
    ReplayAppend(snapshot, raw, 0);
    ExecAppend(empty, Replay(snapshot, 0), Ops(es), run);
  }

  // ---------------------------------------------------------------- and so does any crash afterwards

  /** What was logged before a rewrite is installed, and after it, when the selection is forgotten. */
  lemma {:induction false} RawAllForgets(selected: int, a: seq<Event>, b: seq<Event>)
    ensures RawAll(selected, a + [ForgetSelected] + b) == RawAll(selected, a) + RawAll(-1, b)
    ensures Ops(a + [ForgetSelected] + b) == Ops(a) + Ops(b)
    decreases |a|
  {
    hide Raw;
    var all := a + [ForgetSelected] + b;
    if a == [] {
      assert all[1..] == b;
    } else {
      assert all[1..] == a[1..] + [ForgetSelected] + b;
      RawAllForgets(if a[0].ForgetSelected? then -1 else a[0].op.db, a[1..], b);
    }
  }

  /** The first k logged commands replay as the first operations, each on its own database. */
  lemma {:induction false} PrefixReplays(selected: int, es: seq<Event>, db: nat, k: nat) returns (q: nat)
    requires AllLoggable(es) && (selected == -1 || selected == db) && k <= |RawAll(selected, es)|
    ensures forall i :: 0 <= i < |RawAll(selected, es)| ==> |RawAll(selected, es)[i]| > 0
    ensures q <= |Ops(es)| && Replay(RawAll(selected, es)[..k], db) == Ops(es)[..q]
    ensures k == |RawAll(selected, es)| ==> q == |Ops(es)|
    decreases |es|
  {
    hide Loggable, Left, Replay;
    SelectElisionIsSound(selected, es, db);
    NothingToReplay(db);
    if es == [] {
      q := 0;
    } else if es[0].ForgetSelected? {
      q := PrefixReplays(-1, es[1..], db, k);
    } else {
      var op := es[0].op;
      var (raw, rest) := (Raw(selected, op), RawAll(op.db, es[1..]));
      ReplayRaw(selected, op, db);
      if k < |raw| {
        q := 0;
        CutRaw(selected, op, db, k);
        assert (raw + rest)[..k] == raw[..k];
      } else {
        var p := PrefixReplays(op.db, es[1..], op.db, k - |raw|);
        q := p + 1;
        assert (raw + rest)[..k] == raw + rest[..k - |raw|];
        ReplayAppend(raw, rest[..k - |raw|], db);
      }
    }
  }

  /** A SELECT alone is no operation. */
  lemma CutRaw(selected: int, op: Op, db: nat, k: nat)
    requires Loggable(op) && k < |Raw(selected, op)|
    ensures forall i :: 0 <= i < k ==> |Raw(selected, op)[i]| > 0
    ensures Replay(Raw(selected, op)[..k], db) == []
  {
    if k == 1 {
      var s: seq<Command> := [Select(op.db)];
      assert Raw(selected, op)[..1] == s && s[1..] == [] && IsSelectName(s[0][0]);
      NothingToReplay(Selected(s[0], db));
    } else {
      assert Raw(selected, op)[..0] == [];
    }
  }

  /** A cut that spares the snapshot leaves all of its commands whole. */
  lemma SnapshotSurvives(snapshot: seq<Command>, rest: seq<Command>, n: nat, known: Arg -> bool)
    requires AllPrintable(snapshot + rest, known) && 0 < n <= |Log(snapshot + rest)| && |Log(snapshot)| <= n
    ensures |snapshot| <= Whole(snapshot + rest, n) <= |snapshot + rest|
    ensures n == |Log(snapshot + rest)| ==> Whole(snapshot + rest, n) == |snapshot + rest|
  {
    hide Log, AllPrintable, Load;
    var cmds := snapshot + rest;
    var k := Whole(cmds, n);
    CutLogRecovers(cmds, n, known, _ => false);
    WholeLog(cmds);
    if k < |snapshot| {
      assert cmds[..k + 1] == snapshot[..k + 1] && snapshot == snapshot[..k + 1] + snapshot[k + 1..];
      AofFlush.LogAppend(snapshot[..k + 1], snapshot[k + 1..]);
    }
  }

  /**
   From the fork on: operations are logged while the child rewrites, the file is installed, more are
   logged, flushed with any failures, and the machine crashes with any end of the file lost behind the
   snapshot. What is left loads, and replaying it rebuilds the dataset of the fork with the first of
   those operations applied, each to its own database; with all of them, if nothing was lost.
   */
  lemma CrashAfterRewrite<S>(
    snapshot: seq<Command>, es: seq<Event>, before: seq<AofRewrite.Step>, mid: AofRewrite.Rewrite,
    after: seq<AofRewrite.Step>, r: AofRewrite.Rewrite,
    later: seq<Event>, fsync: AofFlush.Fsync, io: seq<AofFlush.Event>, n: nat,
    empty: S, forked: S, run: (S, Op) -> S, known: Arg -> bool, open: seq<Command> -> bool)
    returns (q: nat)
    requires AofRewrite.IsRun(AofRewrite.FORK, before, mid) && mid.phase == AofRewrite.Acked
    requires AofRewrite.IsRun(AofRewrite.Apply(mid, AofRewrite.FinalRead(|mid.pipe|)), after, r)
    requires AllLoggable(es) && r.fed == Log(RawAll(-1, es))
    requires AllLoggable(later) && AofFlush.Commands(io) == RawAll(-1, later)
    requires forall i :: 0 <= i < |snapshot| ==> |snapshot[i]| > 0
    requires Exec(empty, Replay(snapshot, 0), run) == forked
    requires AllPrintable(snapshot + RawAll(-1, es) + RawAll(-1, later), known)
    requires var installed := AofRewrite.Installed(Log(snapshot), r);
      0 < n && |Log(snapshot)| <= n <= |AofFlush.Run(AofFlush.Opened(installed), fsync, io).file|
    ensures var cmds := snapshot + RawAll(-1, es) + RawAll(-1, later);
      var ops := Ops(es) + Ops(later);
      var file := AofFlush.Run(AofFlush.Opened(AofRewrite.Installed(Log(snapshot), r)), fsync, io).file;
      var k := Whole(cmds, n);
      && k <= |cmds| && Load(file[..n], known, open, true) == Loaded(cmds[..k], Log(cmds[..k]))
      && (forall i :: 0 <= i < |cmds[..k]| ==> |cmds[..k][i]| > 0)
      && q <= |ops| && Exec(empty, Replay(cmds[..k], 0), run) == Exec(forked, ops[..q], run)
      && (n == |Log(cmds)| ==> q == |ops|)
  {
    hide Load, Replay, RawAll, Ops, AllPrintable, AofRewrite.IsRun, AofRewrite.Installed, AllLoggable, Left, Exec, Log;
    hide AofFlush.Run, AofFlush.Commands, Whole;
    var (raw, more) := (RawAll(-1, es), RawAll(-1, later));
    var cmds := snapshot + raw + more;
    InstalledIsLog(snapshot, raw, before, mid, after, r);
    AofFlush.CrashRecovers(snapshot + raw, fsync, io, n, known, open);
    var all := es + [ForgetSelected] + later;
    RawAllForgets(-1, es, later);
    assert cmds == snapshot + RawAll(-1, all);
    SnapshotSurvives(snapshot, RawAll(-1, all), n, known);
    BothLoggable(es, later);
    q := CutReplays(snapshot, all, Whole(cmds, n), empty, forked, run);
  }

  lemma BothLoggable(a: seq<Event>, b: seq<Event>)
    requires AllLoggable(a) && AllLoggable(b)
    ensures AllLoggable(a + [ForgetSelected] + b)
  {
    hide Loggable;
    var all := a + [ForgetSelected] + b;
    forall i | 0 <= i < |all| && all[i].Do? ensures Loggable(all[i].op) {
      if i < |a| {
        assert all[i] == a[i];
      } else {
        assert all[i] == b[i - |a| - 1];
      }
    }
  }

  /** Replaying the snapshot and the first commands behind it. */
  lemma CutReplays<S>(snapshot: seq<Command>, es: seq<Event>, k: nat, empty: S, forked: S, run: (S, Op) -> S)
    returns (q: nat)
    requires AllLoggable(es) && |snapshot| <= k <= |snapshot + RawAll(-1, es)|
    requires forall i :: 0 <= i < |snapshot| ==> |snapshot[i]| > 0
    requires Exec(empty, Replay(snapshot, 0), run) == forked
    ensures var cmds := (snapshot + RawAll(-1, es))[..k];
      && (forall i :: 0 <= i < |cmds| ==> |cmds[i]| > 0)
      && q <= |Ops(es)| && Exec(empty, Replay(cmds, 0), run) == Exec(forked, Ops(es)[..q], run)
    ensures k == |snapshot + RawAll(-1, es)| ==> q == |Ops(es)|
  {
    hide Replay, RawAll, Ops, AllLoggable, Left, Exec;
    var raw := RawAll(-1, es);
    var j := k - |snapshot|;
    q := PrefixReplays(-1, es, Left(snapshot, 0), j);
    assert (snapshot + raw)[..k] == snapshot + raw[..j];
    ReplayAppend(snapshot, raw[..j], 0);
    ExecAppend(empty, Replay(snapshot, 0), Ops(es)[..q], run);
  }
}
