/**
 * crates/nargo-core/src/logger.rs: three log levels with their names, a
 * global level that gates logging, and a line buffer that is written to
 * standard error once it holds 4096 bytes or more.
 *
 * The atomic level and the thread-local buffer are fields of one object;
 * standard error is the sequence of bytes written to it. A message is
 * given already formatted, as bytes.
 */
module Logger {
  import opened Wrappers

  newtype byte = x: int | 0 <= x < 256

  const NEWLINE: byte := 10
  const FLUSH_AT: nat := 4096

  datatype Level = Off | Info | Trace

  /** `level as u8` */
  function Rank(l: Level): nat {
    match l
    case Off => 0
    case Info => 1
    case Trace => 2
  }

  /** The numbering is the declaration order and tells levels apart. */
  lemma RankOrder(a: Level, b: Level)
    ensures Rank(Off) < Rank(Info) < Rank(Trace)
    ensures Rank(a) == Rank(b) ==> a == b
  {
  }

  /** `Level::as_str` */
  function AsStr(l: Level): string {
    match l
    case Off => "off"
    case Info => "info"
    case Trace => "trace"
  }

  /** `Level::from_str`: exactly the three names, nothing else. */
  function FromStr(s: string): (r: Result<Level, ()>)
    ensures r.Ok? <==> s in {"off", "info", "trace"}
  {
    if s == "off" then Ok(Off)
    else if s == "info" then Ok(Info)
    else if s == "trace" then Ok(Trace)
    else Err(())
  }

  /** Every level's name reads back as that level. */
  lemma FromStrAsStr(l: Level)
    ensures FromStr(AsStr(l)) == Ok(l)
  {
  }

  /** Every accepted name is the name of the level it reads as. */
  lemma AsStrFromStr(s: string)
    requires FromStr(s).Ok?
    ensures AsStr(FromStr(s).value) == s
  {
  }

  class Logger {
    /** `LOG_LEVEL` */
    var level: Level
    /** `BUF` */
    var buf: seq<byte>
    /** Everything written to standard error so far. */
    var stderr: seq<byte>

    /** The buffer never stays at or above the flush threshold. */
    ghost predicate Valid()
      reads this
    {
      |buf| < FLUSH_AT
    }

    /** The initial state: level `Info`, nothing buffered or written. */
    constructor ()
      ensures level == Info && buf == [] && stderr == []
      ensures Valid()
    {
      level := Info;
      buf := [];
      stderr := [];
    }

    /** `set_level` */
    method SetLevel(l: Level)
      modifies this
      ensures level == l && buf == old(buf) && stderr == old(stderr)
    {
      level := l;
    }

    /** `trace_enabled` */
    function TraceEnabled(): (enabled: bool)
      reads this
      ensures enabled <==> level == Trace
    {
      Rank(Trace) <= Rank(level)
    }

    /** Whether the `log!` macro passes a message at `lvl` on. */
    function Enabled(lvl: Level): (enabled: bool)
      reads this
      ensures lvl == Off ==> enabled
      ensures level == Off ==> (enabled <==> lvl == Off)
      ensures enabled <==> Rank(lvl) <= Rank(level)
    {
      Rank(lvl) <= Rank(level)
    }

    /** `flush_inner`: an empty buffer writes nothing; otherwise standard
        error grows by exactly the buffer, which is then empty. */
    method FlushInner()
      modifies this
      ensures buf == [] && stderr == old(stderr) + old(buf)
      ensures level == old(level)
    {
      if buf != [] {
        stderr := stderr + buf;
        buf := [];
      } else {
        assert stderr + buf == stderr;
      }
    }

    /** `log`: the message and a newline go into the buffer, which is
        flushed when it reaches the threshold. Nothing is lost or reordered:
        what was written plus what is buffered grows by exactly the line. */
    method Log(msg: seq<byte>)
      modifies this
      ensures Valid()
      ensures stderr + buf == old(stderr) + old(buf) + msg + [NEWLINE]
      ensures |old(buf)| + |msg| + 1 < FLUSH_AT ==> buf == old(buf) + msg + [NEWLINE] && stderr == old(stderr)
      ensures |old(buf)| + |msg| + 1 >= FLUSH_AT ==> buf == [] && stderr == old(stderr) + old(buf) + msg + [NEWLINE]
      ensures level == old(level)
    {
      buf := buf + msg;
      buf := buf + [NEWLINE];
      if |buf| >= FLUSH_AT {
        FlushInner();
      }
    }

    /** `flush` */
    method Flush()
      modifies this
      ensures buf == [] && stderr == old(stderr) + old(buf)
      ensures level == old(level)
    {
      FlushInner();
    }

    /** The `log!` macro: a message is recorded only when its level is at
        most the current one. */
    method LogAt(lvl: Level, msg: seq<byte>)
      modifies this
      ensures old(Valid()) ==> Valid()
      ensures Enabled(lvl) ==> stderr + buf == old(stderr) + old(buf) + msg + [NEWLINE]
      ensures !Enabled(lvl) ==> buf == old(buf) && stderr == old(stderr)
      ensures level == old(level)
    {
      if Rank(lvl) <= Rank(level) {
        Log(msg);
      }
    }
  }
}
