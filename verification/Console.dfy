/** The bounded terminal log and the output buffer in front of the terminal (cmd/rvwasm/main.go). */
module ConsoleLog {

  type byte = x: int | 0 <= x < 256

  const MAX_LOG := 2 * 1024 * 1024
  const FLUSH_AT := 64
  const LF: byte := 10
  const CR: byte := 13

  /** The last n bytes, or all of them. */
  function Tail(s: seq<byte>, n: nat): seq<byte> {
    if |s| <= n then s else s[|s| - n..]
  }

  /** What one appended byte leaves in the log. */
  function Retain(log: seq<byte>, b: byte): seq<byte> {
    Tail(log + [b], MAX_LOG)
  }

  function RetainAll(stream: seq<byte>): seq<byte> {
    if stream == [] then [] else Retain(RetainAll(stream[..|stream| - 1]), stream[|stream| - 1])
  }

  lemma RetainOneMore(stream: seq<byte>, b: byte)
    ensures RetainAll(stream + [b]) == Retain(RetainAll(stream), b)
  {
    assert (stream + [b])[..|stream|] == stream;
  }

  /** The output buffer after a byte: emptied into the terminal when full or at a line end. */
  predicate Flushes(console: seq<byte>, b: byte) {
    |console| + 1 >= FLUSH_AT || b == LF || b == CR
  }

  datatype Output = Output(console: seq<byte>, terminal: seq<byte>)

  function Emit(o: Output, b: byte): Output {
    if Flushes(o.console, b) then Output([], o.terminal + o.console + [b]) else o.(console := o.console + [b])
  }

  function Flushed(o: Output): Output {
    Output([], o.terminal + o.console)
  }

  /** The guest appends bytes; step, every tick and pause flush the buffer, wherever it stands. */
  datatype Action = Append(b: byte) | Flush

  function EmitAll(actions: seq<Action>): Output {
    if actions == [] then Output([], []) else
    var o := EmitAll(actions[..|actions| - 1]);
    match actions[|actions| - 1]
    case Append(b) => Emit(o, b)
    case Flush => Flushed(o)
  }

  /** The bytes appended, whatever was flushed in between. */
  function Stream(actions: seq<Action>): seq<byte> {
    if actions == [] then [] else
    Stream(actions[..|actions| - 1]) + match actions[|actions| - 1]
      case Append(b) => [b]
      case Flush => []
  }

  /** The terminal and the buffer together hold the stream; the buffer holds an unfinished line of it. */
  ghost predicate Reproduces(o: Output, stream: seq<byte>) {
    && o.terminal + o.console == stream
    && |o.console| < FLUSH_AT && LF !in o.console && CR !in o.console
  }

  lemma EmitReproduces(o: Output, stream: seq<byte>, b: byte)
    requires Reproduces(o, stream)
    ensures Reproduces(Emit(o, b), stream + [b]) && Reproduces(Flushed(o), stream)
  {
    assert o.terminal + o.console + [b] == o.terminal + (o.console + [b]);
  }

  /** Truncating at every byte loses nothing that truncating once at the end would keep. */
  lemma {:induction false} RetainAllIsTail(stream: seq<byte>)
    ensures RetainAll(stream) == Tail(stream, MAX_LOG)
    decreases |stream|
  {
    if stream != [] {
      var before := stream[..|stream| - 1];
      RetainAllIsTail(before);
      assert stream == before + [stream[|stream| - 1]];
    }
  }

  /** In numbers: the log holds the last two mebibytes of the stream, or all of it. */
  lemma LogMeans(stream: seq<byte>)
    ensures |RetainAll(stream)| == if |stream| < 2_097_152 then |stream| else 2_097_152
    ensures RetainAll(stream) == stream[|stream| - |RetainAll(stream)|..]
  {
    RetainAllIsTail(stream);
    hide RetainAll;
  }

  /** The buffer is written out by its 64th byte, by a line end, and by nothing else. */
  lemma EmitMeans(o: Output, b: byte)
    requires |o.console| <= 63
    ensures var after := Emit(o, b);
      if |o.console| == 63 || b in {10, 13} then after == Output([], o.terminal + (o.console + [b]))
      else after == Output(o.console + [b], o.terminal)
  {
    assert o.terminal + o.console + [b] == o.terminal + (o.console + [b]);
  }

  /** Over every interleaving of appends and flushes, nothing is lost, doubled or reordered. */
  lemma {:induction false} EmitAllReproduces(actions: seq<Action>)
    ensures Reproduces(EmitAll(actions), Stream(actions))
    decreases |actions|
  {
    if actions != [] {
      var before, last := actions[..|actions| - 1], actions[|actions| - 1];
      EmitAllReproduces(before);
      EmitReproduces(EmitAll(before), Stream(before), if last.Append? then last.b else 0);
      assert Stream(before) + [] == Stream(before);
    }
  }

  /** The overlapping copy(a, a[k:n]): the bytes from k to n move to the front. */
  method CopyDown(a: array<byte>, k: nat, n: nat)
    requires k <= n <= a.Length
    modifies a
    ensures a[..n - k] == old(a[k..n])
  {
    for i := 0 to n - k
      invariant a[..i] == old(a[k..k + i])
      invariant a[i..] == old(a[i..])
    {
      a[i] := a[i + k];
    }
  }

  class Console {
    var log: array<byte>  // terminalLog is log[..logLen]
    var logLen: nat
    var console: seq<byte>
    ghost var stream: seq<byte>  // every byte appended since the last reset
    ghost var terminal: seq<byte>  // every byte handed to the terminal since then

    ghost predicate Valid()
      reads this, log
    {
      && logLen <= log.Length
      && log[..logLen] == RetainAll(stream)
      && Reproduces(Output(console, terminal), stream)
    }

    constructor ()
      ensures Valid() && stream == [] && fresh(log)
    {
      log, logLen, console := new byte[0], 0, [];
      stream, terminal := [], [];
    }

    /** Go's append: into the spare capacity if there is any, into a larger copy otherwise. */
    method PushLog(b: byte)
      requires logLen <= log.Length
      modifies this`log, this`logLen, log
      ensures logLen == old(logLen) + 1 <= log.Length
      ensures log[..logLen] == old(log[..logLen]) + [b]
      ensures log == old(log) || fresh(log)
    {
      if logLen == log.Length {
        var bigger := new byte[2 * logLen + 1];
        forall i | 0 <= i < logLen {
          bigger[i] := log[i];
        }
        log := bigger;
      }
      log[logLen] := b;
      logLen := logLen + 1;
    }

    /** Append to the log, dropping its oldest bytes once it is over-long. */
    method LogByte(b: byte)
      requires logLen <= log.Length
      modifies this`log, this`logLen, log
      ensures logLen <= log.Length && log[..logLen] == Retain(old(log[..logLen]), b)
      ensures log == old(log) || fresh(log)
    {
      PushLog(b);
      if logLen > MAX_LOG {
        CopyDown(log, logLen - MAX_LOG, logLen);
        logLen := MAX_LOG;
      }
    }

    method AppendConsole(b: byte)
      requires Valid()
      modifies this, log
      ensures Valid() && (log == old(log) || fresh(log))
      ensures stream == old(stream) + [b]
      ensures Output(console, terminal) == Emit(old(Output(console, terminal)), b)
    {
      hide Retain, RetainAll, Reproduces, Tail;
      EmitReproduces(Output(console, terminal), stream, b);
      RetainOneMore(stream, b);
      console := console + [b];
      LogByte(b);
      stream := stream + [b];
      assert terminal + console == terminal + old(console) + [b];
      if |console| >= FLUSH_AT || b == LF || b == CR {
        FlushConsole();
      }
    }

    /** Called at any point between appends, and by AppendConsole itself. */
    method FlushConsole()
      modifies this`console, this`terminal
      ensures Output(console, terminal) == Flushed(old(Output(console, terminal)))
      ensures stream == old(stream) && (old(Valid()) ==> Valid())
    {
      if |console| == 0 {
        return;
      }
      terminal := terminal + console;
      console := [];
    }

    /** What Reset does to the console: the unflushed bytes are dropped with the log. */
    method Clear()
      modifies this
      ensures Valid() && stream == [] && fresh(log)
    {
      console := [];
      log, logLen := new byte[0], 0;
      stream, terminal := [], [];
    }

    /** What Valid means: after any appends and flushes since the last reset. */
    lemma Meaning()
      requires Valid()
      ensures logLen <= |stream| && log[..logLen] == stream[|stream| - logLen..] && logLen == if |stream| < 2_097_152 then |stream| else 2_097_152
      ensures terminal + console == stream && |console| < 64
    {
      LogMeans(stream);
    }
  }
}
