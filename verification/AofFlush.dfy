/**
 Writing the append only file: commands are appended to a buffer, and the buffer is flushed to
 the file by single writes that may fail, be short or be put off. What the operating system
 answers is a parameter of every flush.
 */
module AofFlush {
  import opened Common
  import opened AofFormat

  datatype Fsync = Always | EverySecond | Never

  /**
   The answers a flush gets: whether a background fsync is pending, what write(2) returned
   (a failure, or a count of bytes taken) and whether ftruncate(2) worked.
   */
  datatype Io = Io(now: int, force: bool, syncInProgress: bool, written: Option<nat>, truncates: bool)

  datatype Journal = Journal(
    file: seq<Byte>,
    buf: seq<Byte>,
    currentSize: nat,
    postponedStart: int,
    lastWriteOk: bool,
    exited: bool)

  /** The flush may be put off: a background fsync is pending, for less than two seconds. */
  predicate Postpones(w: Journal, fsync: Fsync, io: Io) {
    && fsync == EverySecond && !io.force && io.syncInProgress
    && (w.postponedStart == 0 || io.now - w.postponedStart < 2)
  }

  /** The bytes write(2) put behind the file. */
  function Taken(buf: seq<Byte>, io: Io): nat {
    if io.written.Some? && io.written.value <= |buf| then io.written.value else 0
  }

  /** What one flush makes of the log; written from what reaches the disk, not from the branches. */
  function Flushed(w: Journal, fsync: Fsync, io: Io): Journal {
    var n := Taken(w.buf, io);
    if w.buf == [] then w
    else if Postpones(w, fsync, io) then
      w.(postponedStart := if w.postponedStart == 0 then io.now else w.postponedStart)
    else if n == |w.buf| then
      Journal(w.file + w.buf, [], w.currentSize + n, 0, true, w.exited)
    else
      var stays := io.written.Some? && !io.truncates;
      var kept := if stays then n else 0;
      var file := if io.written.Some? && io.truncates && w.currentSize <= |w.file| then w.file[..w.currentSize]
                  else w.file + w.buf[..kept];
      if fsync == Always then w.(file := file, postponedStart := 0, exited := true)
      else Journal(file, w.buf[kept..], w.currentSize + kept, 0, false, w.exited)
  }

  /** The journal of a file just opened. */
  function Opened(file: seq<Byte>): Journal {
    Journal(file, [], |file|, 0, true, false)
  }

  class Aof {
    const fsync: Fsync
    var file: seq<Byte>
    var buf: seq<Byte>
    var currentSize: nat
    var postponedStart: int
    var lastWriteOk: bool
    var exited: bool

    constructor (fsync: Fsync, contents: seq<Byte>)
      ensures this.fsync == fsync && Model() == Opened(contents)
    {
      this.fsync := fsync;
      file, buf, currentSize, postponedStart, lastWriteOk, exited := contents, [], |contents|, 0, true, false;
    }

    ghost function Model(): Journal
      reads this
    {
      Journal(file, buf, currentSize, postponedStart, lastWriteOk, exited)
    }

    /** The end of feedAppendOnlyFile. */
    method Feed(bytes: seq<Byte>)
      modifies this
      ensures Model() == old(Model()).(buf := old(buf) + bytes)
    {
      buf := buf + bytes;
    }

    /** flushAppendOnlyFile; the file is opened for appending, so write(2) adds at its end. */
    method Flush(io: Io)
      requires currentSize <= |file|
      requires io.written.Some? ==> io.written.value <= |buf|
      modifies this
      ensures Model() == Flushed(old(Model()), fsync, io)
    {
      if |buf| == 0 { return; }
      var syncInProgress := false;
      if fsync == EverySecond {
        syncInProgress := io.syncInProgress;
      }
      if fsync == EverySecond && !io.force {
        if syncInProgress {
          if postponedStart == 0 {
            postponedStart := io.now;
            return;
          } else if io.now - postponedStart < 2 {
            return;
          }
        }
      }
      var nwritten: int := if io.written.Some? then io.written.value else -1;
      if nwritten > 0 {
        file := file + buf[..nwritten];
      }
      postponedStart := 0;
      if nwritten != |buf| {
        if nwritten != -1 {
          if io.truncates {
            file := file[..currentSize];
            nwritten := -1;
          }
        }
        if fsync == Always {
          exited := true;
          return;
        }
        lastWriteOk := false;
        if nwritten > 0 {
          currentSize := currentSize + nwritten;
          buf := buf[nwritten..];
        }
        return;
      } else {
        if !lastWriteOk {
          lastWriteOk := true;
        }
      }
      currentSize := currentSize + nwritten;
      buf := [];
    }
  }

  // ---------------------------------------------------------------- whole runs

  datatype Event = Fed(c: Command) | Flush(io: Io)

  function Step(w: Journal, fsync: Fsync, e: Event): Journal {
    if w.exited then w
    else match e
      case Fed(c) => w.(buf := w.buf + Encode(c))
      case Flush(io) => Flushed(w, fsync, io)
  }

  function Run(w: Journal, fsync: Fsync, es: seq<Event>): Journal
    decreases |es|
  {
    if es == [] then w else Run(Step(w, fsync, es[0]), fsync, es[1..])
  }

  function Commands(es: seq<Event>): seq<Command> {
    if es == [] then []
    else if es[0].Fed? then [es[0].c] + Commands(es[1..])
    else Commands(es[1..])
  }

  /** Nothing fed is lost, repeated or reordered: file and buffer together are the stream. */
  ghost predicate Accounts(w: Journal, stream: seq<Byte>) {
    if w.exited then w.file <= stream
    else w.file + w.buf == stream && |w.file| == w.currentSize
  }

  lemma FlushAccounts(w: Journal, fsync: Fsync, io: Io, stream: seq<Byte>)
    requires Accounts(w, stream) && !w.exited
    ensures Accounts(Flushed(w, fsync, io), stream)
    ensures fsync == Always && !Flushed(w, fsync, io).exited ==> Flushed(w, fsync, io).file == stream
  {
    var n := Taken(w.buf, io);
    var kept := if io.written.Some? && !io.truncates then n else 0;
    assert w.file[..w.currentSize] == w.file;
    assert w.file + w.buf[..kept] + w.buf[kept..] == w.file + w.buf;
    assert w.file + w.buf + [] == w.file + w.buf && w.file + [] == w.file;
    assert kept == 0 ==> w.file + w.buf[..kept] == w.file && w.buf[kept..] == w.buf;
  }

  /** write(2) takes the whole buffer. */
  predicate TakesAll(buf: seq<Byte>, io: Io) {
    io.written == Some(|buf|)
  }

  /** What makes a flush go ahead: another policy than everysec, force, no fsync pending, or a wait of two
      seconds or more since the flush was first put off. */
  predicate GoesAhead(w: Journal, fsync: Fsync, io: Io) {
    fsync != EverySecond || io.force || !io.syncInProgress || (w.postponedStart != 0 && io.now - w.postponedStart >= 2)
  }

  /** A flush that goes ahead writes: all of the stream is in the file if write(2) takes the buffer, and the
      status says so. If it does not, the process ends under the policy always, and otherwise goes on
      with the error noted; what a short write left in the file stays there, and out of the buffer,
      exactly when ftruncate(2) fails. A flush that does not go ahead writes nothing and remembers since when. */
  lemma FlushOutcome(w: Journal, fsync: Fsync, io: Io, stream: seq<Byte>)
    requires Accounts(w, stream) && !w.exited && w.buf != []
    ensures var w' := Flushed(w, fsync, io);
      if !GoesAhead(w, fsync, io) then
        w' == w.(postponedStart := if w.postponedStart == 0 then io.now else w.postponedStart)
      else
        && w'.postponedStart == 0
        && (if TakesAll(w.buf, io)
            then w'.file == stream && w'.buf == [] && w'.lastWriteOk && !w'.exited
            else w'.exited == (fsync == Always) && (fsync != Always ==> !w'.lastWriteOk && w'.buf != []))
        && (!w'.exited && !TakesAll(w.buf, io) && (io.written == None || io.truncates) ==> w'.file == w.file && w'.buf == w.buf)
        && (!w'.exited && io.written.Some? && !io.truncates && io.written.value <= |w.buf| ==>
              w'.file == w.file + w.buf[..io.written.value])
  {
    FlushAccounts(w, fsync, io, stream);
    if GoesAhead(w, fsync, io) && TakesAll(w.buf, io) {
      assert w.file + w.buf == stream;
    }
  }

  lemma FedAccounts(w: Journal, fsync: Fsync, c: Command, stream: seq<Byte>)
    requires Accounts(w, stream)
    ensures Accounts(Step(w, fsync, Fed(c)), stream + Encode(c))
  {
    hide Encode;
    assert w.file + (w.buf + Encode(c)) == (w.file + w.buf) + Encode(c);
  }

  lemma {:induction false} RunAccounts(w: Journal, fsync: Fsync, es: seq<Event>, stream: seq<Byte>)
    requires Accounts(w, stream)
    ensures Accounts(Run(w, fsync, es), stream + Log(Commands(es)))
    decreases |es|
  {
    hide Encode, Flushed, Accounts;
    if es == [] {
      assert stream + [] == stream;
    } else {
      var w' := Step(w, fsync, es[0]);
      if es[0].Fed? {
        var c := es[0].c;
        FedAccounts(w, fsync, c, stream);
        RunAccounts(w', fsync, es[1..], stream + Encode(c));
        assert ([c] + Commands(es[1..]))[1..] == Commands(es[1..]);
        assert stream + Encode(c) + Log(Commands(es[1..])) == stream + (Encode(c) + Log(Commands(es[1..])));
      } else {
        if !w.exited {
          FlushAccounts(w, fsync, es[0].io, stream);
        }
        RunAccounts(w', fsync, es[1..], stream);
      }
    }
  }

  lemma {:induction false} LogAppend(a: seq<Command>, b: seq<Command>)
    ensures Log(a + b) == Log(a) + Log(b)
  {
    hide Encode;
    if a == [] {
      assert a + b == b;
    } else {
      LogAppend(a[1..], b);
      assert (a + b)[1..] == a[1..] + b;
      assert Encode(a[0]) + (Log(a[1..]) + Log(b)) == Encode(a[0]) + Log(a[1..]) + Log(b);
    }
  }

  /**
   A crash at any point of any run, with any failed or short writes before it and any tail of the
   file lost, leaves a file that loads as the first commands fed, each of them whole.
   */
  lemma CrashRecovers(before: seq<Command>, fsync: Fsync, es: seq<Event>, n: nat, known: Arg -> bool, open: seq<Command> -> bool)
    requires AllPrintable(before + Commands(es), known)
    requires 0 < n <= |Run(Opened(Log(before)), fsync, es).file|
    ensures var cmds := before + Commands(es); var k := Whole(cmds, n);
      && var file := Run(Opened(Log(before)), fsync, es).file;
      && file <= Log(cmds)
      && Load(file[..n], known, open, true) == Loaded(cmds[..k], Log(cmds[..k]))
  {
    hide Whole, AllPrintable, Load, Run, Commands;
    var w := Opened(Log(before));
    var cmds := before + Commands(es);
    assert w.file + w.buf == Log(before);
    RunAccounts(w, fsync, es, Log(before));
    LogAppend(before, Commands(es));
    var file := Run(w, fsync, es).file;
    assert file <= Log(cmds);
    assert file[..n] == Log(cmds)[..n];
    CutLogRecovers(cmds, n, known, open);
  }

  // ---------------------------------------------------------------- a flush is not put off for long

  /** A flush that writes, or tries to. */
  ghost predicate Attempts(w: Journal, fsync: Fsync, e: Event) {
    e.Flush? && !w.exited && w.buf != [] && GoesAhead(w, fsync, e.io)
  }

  /** Some flush of the run goes ahead. */
  ghost predicate SomeAttempt(w: Journal, fsync: Fsync, es: seq<Event>)
    decreases |es|
  {
    es != [] && (Attempts(w, fsync, es[0]) || SomeAttempt(Step(w, fsync, es[0]), fsync, es[1..]))
  }

  /** Until a flush goes ahead, the moment it was first put off is remembered and nothing leaves the buffer. */
  lemma {:induction false} WaitIsRemembered(w: Journal, fsync: Fsync, es: seq<Event>)
    requires w.postponedStart != 0 && w.buf != [] && !w.exited && !SomeAttempt(w, fsync, es)
    ensures var w' := Run(w, fsync, es);
      w'.postponedStart == w.postponedStart && w.buf <= w'.buf && w'.file == w.file && !w'.exited
    decreases |es|
  {
    hide Encode;
    if es != [] {
      var w1 := Step(w, fsync, es[0]);
      assert w1.postponedStart == w.postponedStart && w.buf <= w1.buf && w1.file == w.file && !w1.exited;
      WaitIsRemembered(w1, fsync, es[1..]);
    }
  }

  /**
   However a run goes on after a flush was put off at time t: unless some flush has gone ahead since, the
   next one at t + 2 or later goes ahead, and if write(2) takes the buffer then every byte fed so far is
   in the file.
   */
  lemma PutOffFlushIsWritten(w: Journal, fsync: Fsync, put: Io, es: seq<Event>, io: Io, stream: seq<Byte>)
    requires Accounts(w, stream) && !w.exited && w.buf != [] && w.postponedStart == 0
    requires !GoesAhead(w, fsync, put) && put.now != 0 && io.now >= put.now + 2
    ensures var w1 := Flushed(w, fsync, put); var w2 := Run(w1, fsync, es);
      || SomeAttempt(w1, fsync, es)
      || (TakesAll(w2.buf, io) ==>
            var w3 := Flushed(w2, fsync, io);
            w3.file == stream + Log(Commands(es)) && w3.buf == [] && w3.lastWriteOk && !w3.exited)
  {
    hide Flushed, Run, Log, Commands;
    FlushOutcome(w, fsync, put, stream);
    var w1 := Flushed(w, fsync, put);
    if !SomeAttempt(w1, fsync, es) {
      WaitIsRemembered(w1, fsync, es);
      RunAccounts(w1, fsync, es, stream);
      FlushOutcome(Run(w1, fsync, es), fsync, io, stream + Log(Commands(es)));
    }
  }

  /** The condition is needed: a flush put off at time 1, one that goes ahead at time 2, and one put off
      again at time 2 leave a byte in the buffer after a flush at time 3. */
  lemma PutOffAgain(c: Command)
    ensures var (wait, go) := (Io(1, false, true, None, false), Io(2, true, true, Some(|Encode(c)|), false));
      var es := [Fed(c), Flush(wait), Flush(go), Fed(c), Flush(wait.(now := 2))];
      var w := Run(Opened([]), EverySecond, es);
      && !GoesAhead(w, EverySecond, Io(3, false, true, Some(|w.buf|), false))
      && Flushed(w, EverySecond, Io(3, false, true, Some(|w.buf|), false)).buf == Encode(c) != []
  {
    EncodeNotEmpty(c);
    hide Encode;
    var (wait, go) := (Io(1, false, true, None, false), Io(2, true, true, Some(|Encode(c)|), false));
    var es := [Fed(c), Flush(wait), Flush(go), Fed(c), Flush(wait.(now := 2))];
    assert es[1..] == [Flush(wait), Flush(go), Fed(c), Flush(wait.(now := 2))];
    assert es[1..][1..] == [Flush(go), Fed(c), Flush(wait.(now := 2))];
    assert es[1..][1..][1..] == [Fed(c), Flush(wait.(now := 2))];
    assert es[1..][1..][1..][1..] == [Flush(wait.(now := 2))];
    assert es[1..][1..][1..][1..][1..] == [];
    var b := Encode(c);
    assert [] + b == b;
    var w1 := Journal([], b, 0, 0, true, false);
    assert Step(Opened([]), EverySecond, es[0]) == w1;
    var w2 := w1.(postponedStart := 1);
    var w3 := Journal(b, [], |b|, 0, true, false);
    var w4 := w3.(buf := b);
    var w5 := w4.(postponedStart := 2);
    assert Run(w5, EverySecond, []) == w5;
    assert Run(w4, EverySecond, [Flush(wait.(now := 2))]) == Run(w5, EverySecond, []);
    assert Run(w3, EverySecond, [Fed(c), Flush(wait.(now := 2))]) == w5;
    assert Run(w2, EverySecond, es[1..][1..]) == w5;
    assert Run(w1, EverySecond, es[1..]) == w5;
  }
}
