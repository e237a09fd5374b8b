/**
 The buffered line reader: one process-wide fill buffer behind line reads, raw reads and close.

 `World` is the reader's state with the sockets it reads from. Each socket holds the script of
 what `recv` will deliver: chunks of any size, interruptions, failures, then end of stream.
 A byte carries the connection it arrived on; no operation looks at that tag.
 The functions are the programs on values; `Reader` is the same code over its static buffers.
 */
module LineReader {
  import opened Common

  const BUFSIZE: nat := 65536
  const LIMIT: nat := BUFSIZE - 1
  const LF: nat := 10
  const CR: nat := 13

  datatype Byte = Byte(code: nat, conn: nat)

  datatype Event = Chunk(data: seq<Byte>) | Interrupt | Failure

  datatype Socket = Socket(conn: nat, script: seq<Event>)

  /** `buffered` are the bytes received and not yet handed out; they belong to `fillFd`. */
  datatype World = World(fillFd: int, buffered: seq<Byte>, table: map<int, Socket>)

  // ----- recv -----

  datatype Recv = Got(data: seq<Byte>) | Eof | Eintr | Failed

  /** One call of `recv` for at most `max` bytes, and what is left. */
  function Deliver(script: seq<Event>, max: nat): (r: Pair<Recv, seq<Event>>)
    requires max > 0
    ensures r.fst.Got? ==> 0 < |r.fst.data| <= max
    ensures |r.snd| <= |script|
    ensures r.fst.Eintr? || r.fst.Failed? ==> |r.snd| < |script|
  {
    if script == [] then Pair(Eof, [])
    else match script[0]
      case Interrupt => Pair(Eintr, script[1..])
      case Failure => Pair(Failed, script[1..])
      case Chunk(data) =>
        if data == [] then Deliver(script[1..], max)
        else if |data| <= max then Pair(Got(data), script[1..])
        else Pair(Got(data[..max]), [Chunk(data[max..])] + script[1..])
  }

  /** `recv` on a descriptor; a closed one fails. */
  function Receive(w: World, fd: int, max: nat): (r: Pair<Recv, World>)
    requires max > 0
    ensures r.fst.Got? ==> 0 < |r.fst.data| <= max
    ensures r.snd.fillFd == w.fillFd && r.snd.buffered == w.buffered
  {
    if fd !in w.table then Pair(Failed, w) else
    var d := Deliver(w.table[fd].script, max);
    Pair(d.fst, w.(table := w.table[fd := w.table[fd].(script := d.snd)]))
  }

  // ----- the byte stream behind the chunks -----

  /** A byte, or a point where reading fails. */
  datatype Item = Data(b: Byte) | Bad

  function Items(bs: seq<Byte>): (r: seq<Item>)
    ensures |r| == |bs| && forall i :: 0 <= i < |bs| ==> r[i] == Data(bs[i])
  {
    seq(|bs|, i requires 0 <= i < |bs| => Data(bs[i]))
  }

  function Stream(script: seq<Event>): seq<Item> {
    if script == [] then []
    else (match script[0]
          case Chunk(data) => Items(data)
          case Interrupt => []
          case Failure => [Bad]) + Stream(script[1..])
  }

  function SocketStream(w: World, fd: int): seq<Item> {
    if fd in w.table then Stream(w.table[fd].script) else [Bad]
  }

  /** What reads of `fd` have still to see. */
  function Pending(w: World, fd: int): seq<Item> {
    (if fd == w.fillFd then Items(w.buffered) else []) + SocketStream(w, fd)
  }

  lemma {:induction false} SplitChunk(script: seq<Event>, data: seq<Byte>, max: nat)
    requires script != [] && script[0] == Chunk(data) && max < |data|
    ensures Stream(script) == Items(data[..max]) + Stream([Chunk(data[max..])] + script[1..])
  {
    var rest := [Chunk(data[max..])] + script[1..];
    assert rest[1..] == script[1..];
    assert Items(data) == Items(data[..max]) + Items(data[max..]);
  }

  lemma {:induction false} DeliverKeepsStream(script: seq<Event>, max: nat)
    requires max > 0
    ensures var d := Deliver(script, max);
            Stream(script) == (match d.fst
                               case Got(data) => Items(data)
                               case Failed => [Bad]
                               case _ => []) + Stream(d.snd)
    ensures Deliver(script, max).fst.Eof? ==> Stream(script) == []
  {
    if script != [] {
      match script[0]
      case Chunk(data) =>
        if data == [] {
          DeliverKeepsStream(script[1..], max);
          assert Items(data) == [];
        } else if |data| > max {
          SplitChunk(script, data, max);
        }
      case _ =>
    }
  }

  lemma ReceiveKeepsStream(w: World, fd: int, max: nat)
    requires max > 0
    ensures var r := Receive(w, fd, max);
            && (r.fst.Got? ==> SocketStream(w, fd) == Items(r.fst.data) + SocketStream(r.snd, fd))
            && (r.fst.Eintr? ==> SocketStream(w, fd) == SocketStream(r.snd, fd))
            && (r.fst.Eof? ==> SocketStream(w, fd) == SocketStream(r.snd, fd) == [])
            && (r.fst.Failed? ==> SocketStream(w, fd) != [] && SocketStream(w, fd)[0].Bad?)
            && (r.fst.Failed? && fd in w.table ==> SocketStream(r.snd, fd) == SocketStream(w, fd)[1..])
    ensures forall g :: g != fd ==> SocketStream(Receive(w, fd, max).snd, g) == SocketStream(w, g)
  {
    if fd in w.table { DeliverKeepsStream(w.table[fd].script, max); }
  }

  // ----- the programs -----

  function StripCR(line: seq<Byte>): seq<Byte> {
    if line != [] && line[|line| - 1].code == CR then line[..|line| - 1] else line
  }

  function ScriptLength(w: World, fd: int): nat {
    if fd in w.table then |w.table[fd].script| else 0
  }

  /** The loop of sp_net_read_line, with `line` read so far. */
  function ReadLoop(w: World, fd: int, line: seq<Byte>): (r: Pair<Option<seq<Byte>>, World>)
    requires w.fillFd == fd && |line| <= LIMIT
    ensures r.snd.fillFd == fd
    decreases LIMIT - |line|, ScriptLength(w, fd), if w.buffered == [] then 1 else 0
  {
    if |line| == LIMIT then Pair(Some(line), w)
    else if w.buffered == [] then
      var got := Receive(w, fd, BUFSIZE);
      match got.fst
      case Eof => Pair(Some(line), got.snd)
      case Eintr => ReadLoop(got.snd, fd, line)
      case Failed => Pair(None, got.snd)
      case Got(data) => ReadLoop(got.snd.(buffered := data), fd, line)
    else
      var c, w' := w.buffered[0], w.(buffered := w.buffered[1..]);
      if c.code == LF then Pair(Some(StripCR(line)), w') else ReadLoop(w', fd, line + [c])
  }

  function ReadLine(w: World, fd: int): (r: Pair<Option<seq<Byte>>, World>)
    ensures r.snd.fillFd == fd
  {
    ReadLoop(if fd != w.fillFd then w.(fillFd := fd, buffered := []) else w, fd, [])
  }

  function Reset(w: World, fd: int): World {
    if fd < 0 || fd == w.fillFd then w.(fillFd := -1, buffered := []) else w
  }

  /** sp_net_read_line_buffered_remaining: no limit when `max` is not positive. */
  function Remaining(w: World, fd: int, max: int): Pair<seq<Byte>, World> {
    if fd != w.fillFd then Pair([], w) else
    var n := if 0 < max < |w.buffered| then max else |w.buffered|;
    Pair(w.buffered[..n], w.(buffered := w.buffered[n..]))
  }

  /** The socket read behind sp_net_rl_recv_some: interruptions retried, nothing on failure. */
  function RecvDirect(w: World, fd: int, max: nat): Pair<seq<Byte>, World>
    requires max > 0
    decreases ScriptLength(w, fd)
  {
    var got := Receive(w, fd, max);
    match got.fst
    case Got(data) => Pair(data, got.snd)
    case Eintr => RecvDirect(got.snd, fd, max)
    case _ => Pair([], got.snd)
  }

  function RecvSome(w: World, fd: int, maxlen: int): Pair<seq<Byte>, World> {
    var max := if maxlen <= 0 || maxlen >= BUFSIZE then BUFSIZE - 1 else maxlen;
    var rem := Remaining(w, fd, max);
    if rem.fst != [] then rem else RecvDirect(w, fd, max)
  }

  /** sp_net_rl_close. */
  function Close(w: World, fd: int): World {
    var w' := Reset(w, fd);
    w'.(table := w'.table - {fd})
  }

  /** The kernel hands out a descriptor that is not in use. */
  function Accept(w: World, fd: int, socket: Socket): World {
    if fd < 0 || fd in w.table then w else w.(table := w.table[fd := socket])
  }

  // ----- the reference: one byte at a time from the stream -----

  /** LF ends a line and takes one CR before it along; a line is cut at LIMIT bytes. */
  function SplitLine(stream: seq<Item>, line: seq<Byte>): Pair<Option<seq<Byte>>, seq<Item>>
    requires |line| <= LIMIT
    decreases LIMIT - |line|
  {
    if |line| == LIMIT || stream == [] then Pair(Some(line), stream)
    else match stream[0]
      case Bad => Pair(None, stream[1..])
      case Data(b) =>
        if b.code == LF then Pair(Some(StripCR(line)), stream[1..]) else SplitLine(stream[1..], line + [b])
  }

  lemma PendingStep(w: World, fd: int)
    requires w.fillFd == fd && w.buffered != []
    ensures Pending(w, fd) == [Data(w.buffered[0])] + Pending(w.(buffered := w.buffered[1..]), fd)
    ensures Pending(w, fd)[1..] == Pending(w.(buffered := w.buffered[1..]), fd)
  {
    assert Items(w.buffered) == [Data(w.buffered[0])] + Items(w.buffered[1..]);
  }

  lemma {:induction false} ReadLoopSplits(w: World, fd: int, line: seq<Byte>)
    requires w.fillFd == fd && |line| <= LIMIT && fd in w.table
    ensures var r, p := ReadLoop(w, fd, line), SplitLine(Pending(w, fd), line);
            r.fst == p.fst && Pending(r.snd, fd) == p.snd && fd in r.snd.table
    ensures forall g :: g != fd ==> SocketStream(ReadLoop(w, fd, line).snd, g) == SocketStream(w, g)
    decreases LIMIT - |line|, ScriptLength(w, fd), if w.buffered == [] then 1 else 0
  {
    if |line| < LIMIT {
      if w.buffered == [] {
        var got := Receive(w, fd, BUFSIZE);
        ReceiveKeepsStream(w, fd, BUFSIZE);
        assert Pending(w, fd) == SocketStream(w, fd);
        assert Pending(got.snd, fd) == SocketStream(got.snd, fd);
        match got.fst
        case Eintr => ReadLoopSplits(got.snd, fd, line);
        case Got(data) => ReadLoopSplits(got.snd.(buffered := data), fd, line);
        case _ =>
      } else {
        var w' := w.(buffered := w.buffered[1..]);
        PendingStep(w, fd);
        if w.buffered[0].code != LF { ReadLoopSplits(w', fd, line + [w.buffered[0]]); }
      }
    }
  }

  /** However `recv` cuts the stream up, a line read is a pure split of it. */
  lemma LineIsSplit(w: World, fd: int)
    requires fd in w.table
    ensures var r, p := ReadLine(w, fd), SplitLine(Pending(w, fd), []);
            r.fst == p.fst && Pending(r.snd, fd) == p.snd && fd in r.snd.table
    ensures forall g :: g != fd ==> Pending(ReadLine(w, fd).snd, g) == SocketStream(w, g)
  {
    var w' := if fd != w.fillFd then w.(fillFd := fd, buffered := []) else w;
    assert Pending(w', fd) == Pending(w, fd);
    ReadLoopSplits(w', fd, []);
  }

  /** Another connection keeps its bytes exactly when none of them were in the buffer. */
  lemma OthersKeepBytes(w: World, fd: int, g: int)
    requires fd in w.table && g != fd
    ensures Pending(ReadLine(w, fd).snd, g) == Pending(w, g) <==> !(g == w.fillFd && w.buffered != [])
  {
    LineIsSplit(w, fd);
    if g == w.fillFd && w.buffered != [] {
      assert |Pending(w, g)| == |w.buffered| + |SocketStream(w, g)|;
    }
  }

  // ----- many lines -----

  function SplitLines(stream: seq<Item>, n: nat): Pair<seq<Option<seq<Byte>>>, seq<Item>>
    decreases n
  {
    if n == 0 then Pair([], stream) else
    var first := SplitLine(stream, []);
    var more := SplitLines(first.snd, n - 1);
    Pair([first.fst] + more.fst, more.snd)
  }

  function ReadLines(w: World, fd: int, n: nat): Pair<seq<Option<seq<Byte>>>, World>
    decreases n
  {
    if n == 0 then Pair([], w) else
    var first := ReadLine(w, fd);
    var more := ReadLines(first.snd, fd, n - 1);
    Pair([first.fst] + more.fst, more.snd)
  }

  lemma {:induction false} LinesAreSplits(w: World, fd: int, n: nat)
    requires fd in w.table
    ensures ReadLines(w, fd, n).fst == SplitLines(Pending(w, fd), n).fst
    ensures Pending(ReadLines(w, fd, n).snd, fd) == SplitLines(Pending(w, fd), n).snd
    ensures fd in ReadLines(w, fd, n).snd.table
    decreases n
  {
    if n > 0 {
      LineIsSplit(w, fd);
      LinesAreSplits(ReadLine(w, fd).snd, fd, n - 1);
    }
  }

  /** Two deliveries of the same stream, cut and interrupted differently, give the same lines. */
  lemma {:induction false} ChunkingIndependent(conn: nat, script: seq<Event>, script': seq<Event>, fd: int, n: nat)
    requires Stream(script) == Stream(script')
    ensures var w := World(-1, [], map[fd := Socket(conn, script)]);
            var w' := World(-1, [], map[fd := Socket(conn, script')]);
            ReadLines(w, fd, n).fst == ReadLines(w', fd, n).fst &&
            Pending(ReadLines(w, fd, n).snd, fd) == Pending(ReadLines(w', fd, n).snd, fd)
  {
    var w := World(-1, [], map[fd := Socket(conn, script)]);
    var w' := World(-1, [], map[fd := Socket(conn, script')]);
    assert Items([]) == [];
    assert Pending(w, fd) == Stream(script) && Pending(w', fd) == Stream(script');
    LinesAreSplits(w, fd, n);
    LinesAreSplits(w', fd, n);
  }

  // ----- the split, in terms of where the first LF is -----

  lemma {:induction false} SplitAtLF(bs: seq<Byte>, rest: seq<Item>, line: seq<Byte>)
    requires |line| + |bs| <= LIMIT && forall i :: 0 <= i < |bs| ==> bs[i].code != LF
    ensures SplitLine(Items(bs) + rest, line) == SplitLine(rest, line + bs)
    decreases |bs|
  {
    var stream := Items(bs) + rest;
    if bs == [] {
      assert stream == rest && line + bs == line;
    } else {
      assert stream[1..] == Items(bs[1..]) + rest;
      SplitAtLF(bs[1..], rest, line + [bs[0]]);
      assert line + [bs[0]] + bs[1..] == line + bs;
    }
  }

  lemma {:induction false} ShortLine(bs: seq<Byte>, lf: Byte, rest: seq<Item>)
    requires (forall i :: 0 <= i < |bs| ==> bs[i].code != LF) && lf.code == LF && |bs| < LIMIT
    ensures SplitLine(Items(bs) + [Data(lf)] + rest, []) == Pair(Some(StripCR(bs)), rest)
    ensures SplitLine(Items(bs), []) == Pair(Some(bs), [])
  {
    SplitAtLF(bs, [Data(lf)] + rest, []);
    assert Items(bs) + [Data(lf)] + rest == Items(bs) + ([Data(lf)] + rest);
    SplitAtLF(bs, [], []);
    assert Items(bs) + [] == Items(bs) && [] + bs == bs;
    assert ([Data(lf)] + rest)[1..] == rest;
  }

  ghost predicate NoLF(bs: seq<Byte>) { forall i :: 0 <= i < |bs| ==> bs[i].code != 10 }

  lemma {:induction false} CutLine(bs: seq<Byte>, rest: seq<Item>)
    requires NoLF(bs) && |bs| >= LIMIT
    ensures SplitLine(Items(bs) + rest, []) == Pair(Some(bs[..LIMIT]), Items(bs[LIMIT..]) + rest)
  {
    assert Items(bs) + rest == Items(bs[..LIMIT]) + (Items(bs[LIMIT..]) + rest);
    SplitAtLF(bs[..LIMIT], Items(bs[LIMIT..]) + rest, []);
    assert [] + bs[..LIMIT] == bs[..LIMIT];
  }

  /** The ways a line ends: CR and LF go and nothing else, even if the line ends in CR; LF alone goes; the end
      of the stream takes nothing; and at 65535 bytes the line is cut. */
  lemma {:induction false} SplitCases(bs: seq<Byte>, cr: Byte, lf: Byte, rest: seq<Item>)
    requires NoLF(bs) && cr.code == 13 && lf.code == 10
    ensures |bs| < 65534 ==> SplitLine(Items(bs + [cr, lf]) + rest, []) == Pair(Some(bs), rest)
    ensures |bs| < 65535 && (bs == [] || bs[|bs| - 1].code != 13) ==>
              SplitLine(Items(bs + [lf]) + rest, []) == Pair(Some(bs), rest)
    ensures |bs| < 65535 ==> SplitLine(Items(bs), []) == Pair(Some(bs), [])
    ensures |bs| >= 65535 ==>
              SplitLine(Items(bs) + rest, []) == Pair(Some(bs[..65535]), Items(bs[65535..]) + rest)
  {
    if |bs| < LIMIT {
      ShortLine(bs, lf, rest);
      assert Items(bs + [lf]) + rest == Items(bs) + [Data(lf)] + rest;
    } else {
      CutLine(bs, rest);
    }
    if |bs| + 1 < LIMIT {
      ShortLine(bs + [cr], lf, rest);
      assert Items(bs + [cr, lf]) + rest == Items(bs + [cr]) + [Data(lf)] + rest;
      assert (bs + [cr])[..|bs|] == bs;
    }
  }

  /** A line read, whatever is buffered and however the rest is delivered. */
  lemma {:induction false} LineRead(w: World, fd: int, bs: seq<Byte>, cr: Byte, lf: Byte, rest: seq<Item>)
    requires fd in w.table && NoLF(bs) && cr.code == 13 && lf.code == 10 && |bs| < 65534
    ensures Pending(w, fd) == Items(bs + [cr, lf]) + rest ==>
              ReadLine(w, fd).fst == Some(bs) && Pending(ReadLine(w, fd).snd, fd) == rest
    ensures Pending(w, fd) == Items(bs + [lf]) + rest && (bs == [] || bs[|bs| - 1].code != 13) ==>
              ReadLine(w, fd).fst == Some(bs) && Pending(ReadLine(w, fd).snd, fd) == rest
    ensures Pending(w, fd) == Items(bs) ==> ReadLine(w, fd).fst == Some(bs) && Pending(ReadLine(w, fd).snd, fd) == []
  {
    LineIsSplit(w, fd);
    SplitCases(bs, cr, lf, rest);
  }

  // ----- every byte is accounted for once, in order -----

  /** What a line read takes off the stream besides the line: nothing, LF, or CR and LF. */
  function EndOf(stream: seq<Item>, line: seq<Byte>): (t: seq<Byte>)
    requires |line| <= LIMIT
    ensures t == [] || (|t| == 1 && t[0].code == LF) || (|t| == 2 && t[0].code == CR && t[1].code == LF)
    decreases LIMIT - |line|
  {
    if |line| == LIMIT || stream == [] || stream[0].Bad? then []
    else if stream[0].b.code != LF then EndOf(stream[1..], line + [stream[0].b])
    else line[|StripCR(line)|..] + [stream[0].b]
  }

  lemma {:induction false} SplitAccounts(stream: seq<Item>, line: seq<Byte>)
    requires |line| <= LIMIT
    ensures var p := SplitLine(stream, line);
            && |p.snd| <= |stream| && p.snd == stream[|stream| - |p.snd|..]
            && (p.fst.Some? ==> Items(line) + stream == Items(p.fst.value + EndOf(stream, line)) + p.snd)
    decreases LIMIT - |line|
  {
    if |line| < LIMIT && stream != [] && stream[0].Data? {
      var b := stream[0].b;
      assert Items(line) + stream == Items(line + [b]) + stream[1..];
      if b.code != LF {
        SplitAccounts(stream[1..], line + [b]);
      } else {
        assert StripCR(line) + (line[|StripCR(line)|..] + [b]) == line + [b];
      }
    } else {
      assert line + [] == line;
    }
  }

  lemma RecvAccounts(w: World, fd: int, maxlen: int)
    requires fd in w.table
    ensures var r := RecvSome(w, fd, maxlen);
            && fd in r.snd.table
            && (r.fst != [] ==> Pending(w, fd) == Items(r.fst) + Pending(r.snd, fd))
            && (r.fst == [] ==> (Pending(w, fd) == [] == Pending(r.snd, fd)) ||
                                (Pending(w, fd) != [] && Pending(w, fd)[0].Bad? &&
                                 Pending(r.snd, fd) == Pending(w, fd)[1..]))
  {
    var max := if maxlen <= 0 || maxlen >= BUFSIZE then BUFSIZE - 1 else maxlen;
    var rem := Remaining(w, fd, max);
    if rem.fst != [] {
      RestTakes(w, fd, max);
    } else {
      RecvDirectAccounts(w, fd, max);
      NothingBuffered(w, fd);
      NothingBuffered(RecvDirect(w, fd, max).snd, fd);
    }
  }

  lemma NothingBuffered(w: World, fd: int)
    ensures fd != w.fillFd || w.buffered == [] ==> Pending(w, fd) == SocketStream(w, fd)
  {
    if w.buffered == [] { assert Items(w.buffered) == []; }
  }

  /** How much a raw read returns: at most what is asked for, and from the buffer all of that it has. */
  lemma RawSize(w: World, fd: int, maxlen: int)
    ensures var asked, got := if 0 < maxlen < 65536 then maxlen else 65535, |RecvSome(w, fd, maxlen).fst|;
            && got <= asked
            && (fd == w.fillFd && w.buffered != [] ==> got == if asked < |w.buffered| then asked else |w.buffered|)
  {
    RecvDirectSize(w, fd, if 0 < maxlen < 65536 then maxlen else 65535);
  }

  lemma {:induction false} RecvDirectSize(w: World, fd: int, max: nat)
    requires max > 0
    ensures |RecvDirect(w, fd, max).fst| <= max
    decreases ScriptLength(w, fd)
  {
    var got := Receive(w, fd, max);
    if got.fst.Eintr? { RecvDirectSize(got.snd, fd, max); }
  }

  /** What handing over the buffer returns: all of it, or as much as a positive limit allows. */
  lemma RestSize(w: World, fd: int, max: int)
    ensures var r := Remaining(w, fd, max);
            if fd != w.fillFd then r.fst == []
            else r.fst + r.snd.buffered == w.buffered &&
                 |r.fst| == if 0 < max < |w.buffered| then max else |w.buffered|
  {
  }

  lemma {:induction false} RecvDirectAccounts(w: World, fd: int, max: nat)
    requires max > 0 && fd in w.table
    ensures var r := RecvDirect(w, fd, max);
            && fd in r.snd.table && r.snd.fillFd == w.fillFd && r.snd.buffered == w.buffered
            && (r.fst != [] ==> SocketStream(w, fd) == Items(r.fst) + SocketStream(r.snd, fd))
            && (r.fst == [] ==> (SocketStream(w, fd) == [] == SocketStream(r.snd, fd)) ||
                                (SocketStream(w, fd) != [] && SocketStream(w, fd)[0].Bad? &&
                                 SocketStream(r.snd, fd) == SocketStream(w, fd)[1..]))
    decreases ScriptLength(w, fd)
  {
    ReceiveKeepsStream(w, fd, max);
    var got := Receive(w, fd, max);
    if got.fst.Eintr? { RecvDirectAccounts(got.snd, fd, max); }
  }

  // ----- no bytes cross connections -----

  ghost predicate SameConnections(w: World, w': World) {
    w.table.Keys == w'.table.Keys && forall fd | fd in w.table :: w.table[fd].conn == w'.table[fd].conn
  }

  lemma {:induction false} ReadLoopConnections(w: World, fd: int, line: seq<Byte>)
    requires w.fillFd == fd && |line| <= LIMIT
    ensures SameConnections(w, ReadLoop(w, fd, line).snd)
    ensures fd !in w.table && w.buffered == [] && |line| < LIMIT ==> ReadLoop(w, fd, line) == Pair(None, w)
    decreases LIMIT - |line|, ScriptLength(w, fd), if w.buffered == [] then 1 else 0
  {
    if |line| < LIMIT {
      if w.buffered == [] {
        var got := Receive(w, fd, BUFSIZE);
        if got.fst.Eintr? { ReadLoopConnections(got.snd, fd, line); }
        if got.fst.Got? { ReadLoopConnections(got.snd.(buffered := got.fst.data), fd, line); }
      } else if w.buffered[0].code != LF {
        ReadLoopConnections(w.(buffered := w.buffered[1..]), fd, line + [w.buffered[0]]);
      }
    }
  }

  lemma {:induction false} RecvDirectConnections(w: World, fd: int, max: nat)
    requires max > 0
    ensures var r := RecvDirect(w, fd, max);
            SameConnections(w, r.snd) && r.snd.fillFd == w.fillFd && r.snd.buffered == w.buffered
    ensures fd !in w.table ==> RecvDirect(w, fd, max) == Pair([], w)
    ensures forall g :: g != fd ==> SocketStream(RecvDirect(w, fd, max).snd, g) == SocketStream(w, g)
    decreases ScriptLength(w, fd)
  {
    ReceiveKeepsStream(w, fd, max);
    var got := Receive(w, fd, max);
    if got.fst.Eintr? { RecvDirectConnections(got.snd, fd, max); }
  }

  /** Every byte of a stream arrived on this connection. */
  ghost predicate From(stream: seq<Item>, conn: nat) {
    forall i :: 0 <= i < |stream| ==> stream[i].Data? ==> stream[i].b.conn == conn
  }

  lemma FromParts(a: seq<Item>, b: seq<Item>, conn: nat)
    ensures From(a + b, conn) <==> From(a, conn) && From(b, conn)
  {
    if From(a + b, conn) {
      forall i | 0 <= i < |a| ensures a[i].Data? ==> a[i].b.conn == conn { assert (a + b)[i] == a[i]; }
      forall i | 0 <= i < |b| ensures b[i].Data? ==> b[i].b.conn == conn { assert (a + b)[|a| + i] == b[i]; }
    }
  }

  /** The buffer holds bytes of an open connection, and only of the one its descriptor denotes. */
  ghost predicate Owned(w: World) {
    && (w.buffered != [] ==> w.fillFd in w.table)
    && forall fd | fd in w.table :: From(Pending(w, fd), w.table[fd].conn)
  }

  datatype Call =
    | Accepted(fd: int, socket: Socket) | Line(fd: int) | Raw(fd: int, maxlen: int) | Rest(fd: int, max: int)
    | Forget(fd: int) | Closed(fd: int)

  /** The bytes a call returns and the state it leaves. */
  function Apply(w: World, call: Call): Pair<seq<Byte>, World> {
    match call
    case Accepted(fd, socket) => Pair([], Accept(w, fd, socket))
    case Line(fd) => var r := ReadLine(w, fd); Pair(if r.fst.Some? then r.fst.value else [], r.snd)
    case Raw(fd, maxlen) => RecvSome(w, fd, maxlen)
    case Rest(fd, max) => Remaining(w, fd, max)
    case Forget(fd) => Pair([], Reset(w, fd))
    case Closed(fd) => Pair([], Close(w, fd))
  }

  /** Sockets deliver what arrived on their own connection. */
  ghost predicate ValidCall(call: Call) {
    call.Accepted? ==> From(Stream(call.socket.script), call.socket.conn)
  }

  lemma {:induction false} SplitFrom(stream: seq<Item>, line: seq<Byte>, conn: nat)
    requires |line| <= LIMIT && From(stream, conn) && From(Items(line), conn)
    ensures var p := SplitLine(stream, line);
            From(p.snd, conn) && (p.fst.Some? ==> From(Items(p.fst.value), conn))
    decreases LIMIT - |line|
  {
    if |line| < LIMIT && stream != [] {
      var rest := stream[1..];
      assert From(rest, conn) by { forall i | 0 <= i < |rest| ensures rest[i] == stream[i + 1] { } }
      if stream[0].Data? && stream[0].b.code != LF {
        SplitFrom(rest, line + [stream[0].b], conn);
      }
    }
  }

  lemma LineOwned(w: World, fd: int)
    requires Owned(w)
    ensures Owned(ReadLine(w, fd).snd)
    ensures var r := ReadLine(w, fd).fst;
            r.Some? ==> fd in w.table && From(Items(r.value), w.table[fd].conn)
  {
    var w0 := if fd != w.fillFd then w.(fillFd := fd, buffered := []) else w;
    ReadLoopConnections(w0, fd, []);
    var w' := ReadLine(w, fd).snd;
    forall g | g in w'.table ensures From(Pending(w', g), w'.table[g].conn) {
      FromParts(if g == w.fillFd then Items(w.buffered) else [], SocketStream(w, g), w.table[g].conn);
      if fd in w.table {
        LineIsSplit(w, fd);
        if g == fd { SplitFrom(Pending(w, fd), [], w.table[fd].conn); }
      } else {
        assert Pending(w', g) == SocketStream(w, g);
      }
    }
    if fd in w.table {
      LineIsSplit(w, fd);
      SplitFrom(Pending(w, fd), [], w.table[fd].conn);
    }
  }

  lemma RawOwned(w: World, fd: int, maxlen: int)
    requires Owned(w)
    ensures Owned(RecvSome(w, fd, maxlen).snd)
    ensures var r := RecvSome(w, fd, maxlen).fst;
            r != [] ==> fd in w.table && From(Items(r), w.table[fd].conn)
  {
    var max := if maxlen <= 0 || maxlen >= BUFSIZE then BUFSIZE - 1 else maxlen;
    RecvDirectConnections(w, fd, max);
    var r := RecvSome(w, fd, maxlen);
    forall g | g in r.snd.table ensures From(Pending(r.snd, g), r.snd.table[g].conn) {
      if g == fd { RawSuffix(w, fd, maxlen); } else { assert Pending(r.snd, g) == Pending(w, g); }
    }
    if fd in w.table && r.fst != [] {
      RecvAccounts(w, fd, maxlen);
      FromParts(Items(r.fst), Pending(r.snd, fd), w.table[fd].conn);
    }
  }

  lemma RawSuffix(w: World, fd: int, maxlen: int)
    requires fd in w.table && From(Pending(w, fd), w.table[fd].conn)
    ensures From(Pending(RecvSome(w, fd, maxlen).snd, fd), w.table[fd].conn)
  {
    var conn, r := w.table[fd].conn, RecvSome(w, fd, maxlen);
    RecvAccounts(w, fd, maxlen);
    if r.fst != [] {
      FromParts(Items(r.fst), Pending(r.snd, fd), conn);
    } else {
      var max := if maxlen <= 0 || maxlen >= BUFSIZE then BUFSIZE - 1 else maxlen;
      var mine := if fd == w.fillFd then Items(w.buffered) else [];
      FromParts(mine, SocketStream(w, fd), conn);
      DirectFrom(w, fd, max, conn);
      FromParts(mine, SocketStream(r.snd, fd), conn);
      RecvDirectConnections(w, fd, max);
    }
  }

  lemma {:induction false} DirectFrom(w: World, fd: int, max: nat, conn: nat)
    requires max > 0 && fd in w.table && From(SocketStream(w, fd), conn)
    ensures From(SocketStream(RecvDirect(w, fd, max).snd, fd), conn)
    decreases ScriptLength(w, fd)
  {
    ReceiveKeepsStream(w, fd, max);
    var got := Receive(w, fd, max);
    if got.fst.Got? {
      FromParts(Items(got.fst.data), SocketStream(got.snd, fd), conn);
    } else if got.fst.Eintr? {
      DirectFrom(got.snd, fd, max, conn);
    }
  }

  lemma CloseOwned(w: World, fd: int)
    requires Owned(w)
    ensures Owned(Close(w, fd))
  {
    var w' := Close(w, fd);
    forall g | g in w'.table ensures From(Pending(w', g), w'.table[g].conn) {
      FromParts(if g == w.fillFd then Items(w.buffered) else [], SocketStream(w, g), w.table[g].conn);
      assert Pending(w', g) == Pending(w, g) || Pending(w', g) == SocketStream(w, g);
    }
  }

  lemma ResetOwned(w: World, fd: int)
    requires Owned(w)
    ensures Owned(Reset(w, fd))
  {
    var w' := Reset(w, fd);
    forall g | g in w'.table ensures From(Pending(w', g), w'.table[g].conn) {
      FromParts(if g == w.fillFd then Items(w.buffered) else [], SocketStream(w, g), w.table[g].conn);
      assert Pending(w', g) == Pending(w, g) || Pending(w', g) == SocketStream(w, g);
    }
  }

  lemma RestTakes(w: World, fd: int, max: int)
    ensures var r := Remaining(w, fd, max);
            Pending(w, fd) == Items(r.fst) + Pending(r.snd, fd) && r.snd.table == w.table && r.snd.fillFd == w.fillFd
  {
    if fd == w.fillFd {
      var n := if 0 < max < |w.buffered| then max else |w.buffered|;
      var stream := SocketStream(w, fd);
      ItemsSplit(w.buffered, n);
      assert Items(w.buffered[..n]) + Items(w.buffered[n..]) + stream ==
             Items(w.buffered[..n]) + (Items(w.buffered[n..]) + stream);
    }
  }

  lemma ItemsSplit(bs: seq<Byte>, n: nat)
    requires n <= |bs|
    ensures Items(bs) == Items(bs[..n]) + Items(bs[n..])
  {
  }

  lemma RestOwned(w: World, fd: int, max: int)
    requires Owned(w)
    ensures Owned(Remaining(w, fd, max).snd)
    ensures var r := Remaining(w, fd, max).fst; r != [] ==> fd in w.table && From(Items(r), w.table[fd].conn)
  {
    var r := Remaining(w, fd, max);
    RestTakes(w, fd, max);
    forall g | g in r.snd.table ensures From(Pending(r.snd, g), r.snd.table[g].conn) {
      if g == fd {
        FromParts(Items(r.fst), Pending(r.snd, fd), w.table[fd].conn);
      } else {
        assert Pending(r.snd, g) == Pending(w, g);
      }
    }
    if r.fst != [] { FromParts(Items(r.fst), Pending(r.snd, fd), w.table[fd].conn); }
  }

  lemma AcceptOwned(w: World, fd: int, socket: Socket)
    requires Owned(w) && From(Stream(socket.script), socket.conn)
    ensures Owned(Accept(w, fd, socket))
  {
    var w' := Accept(w, fd, socket);
    if fd >= 0 && fd !in w.table {
      assert Pending(w', fd) == Stream(socket.script) by {
        assert fd == w.fillFd ==> Items(w.buffered) == [];
      }
      forall g | g in w'.table && g != fd ensures From(Pending(w', g), w'.table[g].conn) {
        assert Pending(w', g) == Pending(w, g);
      }
    }
  }

  lemma ApplyOwned(w: World, call: Call)
    requires Owned(w) && ValidCall(call)
    ensures Owned(Apply(w, call).snd)
    ensures var bs := Apply(w, call).fst;
            bs != [] ==> call.fd in w.table && forall b | b in bs :: b.conn == w.table[call.fd].conn
  {
    var bs := Apply(w, call).fst;
    match call
    case Accepted(fd, socket) => AcceptOwned(w, fd, socket);
    case Closed(fd) => CloseOwned(w, fd);
    case Forget(fd) => ResetOwned(w, fd);
    case Rest(fd, max) =>
      RestOwned(w, fd, max);
      if bs != [] { FromBytes(bs, w.table[fd].conn); }
    case Line(fd) =>
      LineOwned(w, fd);
      if bs != [] { FromBytes(bs, w.table[fd].conn); }
    case Raw(fd, maxlen) =>
      RawOwned(w, fd, maxlen);
      if bs != [] { FromBytes(bs, w.table[fd].conn); }
  }

  lemma FromBytes(bs: seq<Byte>, conn: nat)
    requires From(Items(bs), conn)
    ensures forall b | b in bs :: b.conn == conn
  {
    forall b | b in bs ensures b.conn == conn {
      var i :| 0 <= i < |bs| && bs[i] == b;
      assert Items(bs)[i] == Data(b);
    }
  }

  const START := World(-1, [], map[])

  function After(calls: seq<Call>): World {
    if calls == [] then START else Apply(After(calls[..|calls| - 1]), calls[|calls| - 1]).snd
  }

  lemma {:induction false} AlwaysOwned(calls: seq<Call>)
    requires forall c | c in calls :: ValidCall(c)
    ensures Owned(After(calls))
  {
    if calls != [] {
      var n := |calls| - 1;
      AlwaysOwned(calls[..n]);
      assert calls[n] in calls;
      ApplyOwned(After(calls[..n]), calls[n]);
    }
  }

  /** In every run whose closes are sp_net_rl_close, a call returns bytes only for an open
      descriptor, and only bytes received on the connection that descriptor denotes then,
      however often its number has been reused. */
  lemma NoBytesCross(calls: seq<Call>, k: nat)
    requires k < |calls| && forall c | c in calls :: ValidCall(c)
    ensures var w := After(calls[..k]);
            var bs := Apply(w, calls[k]).fst;
            bs != [] ==> calls[k].fd in w.table && forall b | b in bs :: b.conn == w.table[calls[k].fd].conn
  {
    AlwaysOwned(calls[..k]);
    assert calls[k] in calls;
    ApplyOwned(After(calls[..k]), calls[k]);
  }

  // ----- over every run, no byte is lost but at a switch -----

  /** A call that gives a descriptor that is not in use a new connection. */
  predicate Opens(w: World, call: Call, fd: int) {
    call.Accepted? && call.fd == fd && fd >= 0 && fd !in w.table
  }

  predicate IsRead(call: Call) { call.Line? || call.Raw? || call.Rest? }

  predicate ReadsFrom(call: Call, fd: int) { IsRead(call) && call.fd == fd }

  function TakesLine(stream: seq<Item>): seq<Item> {
    var p := SplitLine(stream, []);
    if p.fst.Some? then Items(p.fst.value + EndOf(stream, []))
    else if |p.snd| <= |stream| then stream[..|stream| - |p.snd|] else []
  }

  /** What a read takes: what it returns and the line's terminator, or all up to the fault it reports. */
  function Takes(w: World, call: Call): seq<Item>
    requires IsRead(call)
  {
    var stream := Pending(w, call.fd);
    if call.Rest? then Items(Remaining(w, call.fd, call.max).fst)
    else if call.Raw? then
      var bs := RecvSome(w, call.fd, call.maxlen).fst;
      if bs == [] && stream != [] then [Bad] else Items(bs)
    else TakesLine(stream)
  }

  /** All that the connection `fd` denotes was ever sent. */
  function Delivered(calls: seq<Call>, fd: int): seq<Item> {
    if calls == [] then [] else
    var w, call := After(calls[..|calls| - 1]), calls[|calls| - 1];
    if Opens(w, call, fd) then Stream(call.socket.script) else Delivered(calls[..|calls| - 1], fd)
  }

  /** All that was taken from it, call by call. */
  function Taken(calls: seq<Call>, fd: int): seq<Item> {
    if calls == [] then [] else
    var w, call := After(calls[..|calls| - 1]), calls[|calls| - 1];
    if Opens(w, call, fd) then []
    else Taken(calls[..|calls| - 1], fd) + if ReadsFrom(call, fd) then Takes(w, call) else []
  }

  /** A line read of another descriptor, or a reset that reaches `fd`, while bytes of it are buffered. */
  predicate Drops(w: World, call: Call, fd: int) {
    fd == w.fillFd && w.buffered != [] &&
    ((call.Line? && call.fd != fd) || (call.Closed? && call.fd < 0) || (call.Forget? && (call.fd < 0 || call.fd == fd)))
  }

  predicate Dropped(calls: seq<Call>, fd: int) {
    calls != [] &&
    var w, call := After(calls[..|calls| - 1]), calls[|calls| - 1];
    !Opens(w, call, fd) && (Dropped(calls[..|calls| - 1], fd) || Drops(w, call, fd))
  }

  lemma OwnReadTakes(w: World, call: Call)
    requires IsRead(call) && call.fd in w.table
    ensures Pending(w, call.fd) == Takes(w, call) + Pending(Apply(w, call).snd, call.fd)
  {
    var stream := Pending(w, call.fd);
    if call.Rest? {
      RestTakes(w, call.fd, call.max);
    } else if call.Raw? {
      RecvAccounts(w, call.fd, call.maxlen);
      if RecvSome(w, call.fd, call.maxlen).fst == [] && stream != [] { assert stream == [stream[0]] + stream[1..]; }
    } else {
      LineTakes(w, call.fd);
    }
  }

  lemma LineTakes(w: World, fd: int)
    requires fd in w.table
    ensures Pending(w, fd) == Takes(w, Line(fd)) + Pending(ReadLine(w, fd).snd, fd)
  {
    LineIsSplit(w, fd);
    SplitTakes(Pending(w, fd));
  }

  lemma {:induction false} SplitTakes(stream: seq<Item>)
    ensures stream == TakesLine(stream) + SplitLine(stream, []).snd
  {
    SplitAccounts(stream, []);
    assert Items([]) + stream == stream;
  }

  /** A call on another descriptor leaves the pending bytes alone, or drops exactly the buffered ones. */
  lemma OtherCallKeeps(w: World, call: Call, fd: int)
    requires Owned(w) && fd in w.table && !Opens(w, call, fd) && !ReadsFrom(call, fd) &&
             !(call.Closed? && call.fd == fd)
    ensures var after := Pending(Apply(w, call).snd, fd);
            Pending(w, fd) == if Drops(w, call, fd) then Items(w.buffered) + after else after
  {
    var w' := Apply(w, call).snd;
    match call
    case Raw(g, maxlen) =>
      var max := if maxlen <= 0 || maxlen >= BUFSIZE then BUFSIZE - 1 else maxlen;
      RecvDirectConnections(w, g, max);
    case Line(g) =>
      LineLeaves(w, g, fd);
      NothingBuffered(w, fd);
    case _ => QuietCallKeeps(w, call, fd);
  }

  /** Calls that read no socket. */
  lemma QuietCallKeeps(w: World, call: Call, fd: int)
    requires fd in w.table && !Opens(w, call, fd) && !ReadsFrom(call, fd) && !(call.Closed? && call.fd == fd)
    requires call.Accepted? || call.Closed? || call.Forget? || call.Rest?
    ensures var after := Pending(Apply(w, call).snd, fd);
            Pending(w, fd) == if Drops(w, call, fd) then Items(w.buffered) + after else after
  {
    var w' := Apply(w, call).snd;
    assert SocketStream(w', fd) == SocketStream(w, fd);
    NothingBuffered(w, fd);
    NothingBuffered(w', fd);
  }

  lemma LineLeaves(w: World, g: int, fd: int)
    requires g != fd
    ensures Pending(ReadLine(w, g).snd, fd) == SocketStream(w, fd)
  {
    if g in w.table {
      LineIsSplit(w, g);
    } else {
      var w0 := if g != w.fillFd then w.(fillFd := g, buffered := []) else w;
      ClosedLine(w0, g, []);
    }
  }

  /** A line read of a closed descriptor changes no socket. */
  lemma {:induction false} ClosedLine(w: World, g: int, line: seq<Byte>)
    requires w.fillFd == g && g !in w.table && |line| <= LIMIT
    ensures ReadLoop(w, g, line).snd.table == w.table
    decreases LIMIT - |line|, |w.buffered|
  {
    if |line| < LIMIT && w.buffered != [] && w.buffered[0].code != LF {
      ClosedLine(w.(buffered := w.buffered[1..]), g, line + [w.buffered[0]]);
    }
  }

  // ----- bytes, faults set aside -----

  function Bytes(stream: seq<Item>): seq<Byte> {
    if stream == [] then [] else (if stream[0].Data? then [stream[0].b] else []) + Bytes(stream[1..])
  }

  lemma {:induction false} BytesJoin(a: seq<Item>, b: seq<Item>)
    ensures Bytes(a + b) == Bytes(a) + Bytes(b)
  {
    if a == [] {
      assert a + b == b;
    } else {
      BytesJoin(a[1..], b);
      assert (a + b)[1..] == a[1..] + b && (a + b)[0] == a[0];
    }
  }

  lemma {:induction false} BytesOfItems(bs: seq<Byte>)
    ensures Bytes(Items(bs)) == bs
  {
    if bs != [] {
      BytesOfItems(bs[1..]);
      assert Items(bs)[1..] == Items(bs[1..]);
    }
  }

  /** The accounts of one connection: all is there, or something was dropped and bytes are missing. */
  ghost predicate Balanced(delivered: seq<Item>, taken: seq<Item>, pending: seq<Item>, dropped: bool) {
    && (!dropped ==> delivered == taken + pending)
    && (dropped ==> |Bytes(taken)| + |Bytes(pending)| < |Bytes(delivered)|)
  }

  lemma {:induction false} BalanceRead(delivered: seq<Item>, taken: seq<Item>, pending: seq<Item>, dropped: bool,
                                       now: seq<Item>, rest: seq<Item>)
    requires Balanced(delivered, taken, pending, dropped) && pending == now + rest
    ensures Balanced(delivered, taken + now, rest, dropped)
  {
    BytesJoin(taken, now);
    BytesJoin(now, rest);
    assert taken + now + rest == taken + (now + rest);
  }

  lemma {:induction false} BalanceDrop(delivered: seq<Item>, taken: seq<Item>, pending: seq<Item>, dropped: bool,
                                       lost: seq<Byte>, rest: seq<Item>)
    requires Balanced(delivered, taken, pending, dropped) && pending == Items(lost) + rest && lost != []
    ensures Balanced(delivered, taken, rest, true)
  {
    BytesJoin(taken, pending);
    BytesJoin(Items(lost), rest);
    BytesOfItems(lost);
  }

  lemma {:induction false} RunBalanced(calls: seq<Call>, fd: int)
    requires (forall c | c in calls :: ValidCall(c)) && fd in After(calls).table
    ensures Balanced(Delivered(calls, fd), Taken(calls, fd), Pending(After(calls), fd), Dropped(calls, fd))
  {
    var n := |calls| - 1;
    var before, call := calls[..n], calls[n];
    var w := After(before);
    AlwaysOwned(before);
    if Opens(w, call, fd) {
      assert fd == w.fillFd ==> Items(w.buffered) == [];
      assert Pending(After(calls), fd) == Stream(call.socket.script);
    } else {
      StillOpen(w, call, fd);
      RunBalanced(before, fd);
      var delivered, taken, rest := Delivered(before, fd), Taken(before, fd), Pending(After(calls), fd);
      if ReadsFrom(call, fd) {
        OwnReadTakes(w, call);
        BalanceRead(delivered, taken, Pending(w, fd), Dropped(before, fd), Takes(w, call), rest);
      } else {
        OtherCallKeeps(w, call, fd);
        assert taken + [] == taken;
        if Drops(w, call, fd) {
          BalanceDrop(delivered, taken, Pending(w, fd), Dropped(before, fd), w.buffered, rest);
        }
      }
    }
  }

  /** A descriptor open after a call that did not open it was open before, and was not closed. */
  lemma StillOpen(w: World, call: Call, fd: int)
    requires fd in Apply(w, call).snd.table && !Opens(w, call, fd)
    ensures fd in w.table && !(call.Closed? && call.fd == fd)
  {
    match call
    case Line(g) => ReadLoopConnections(if g != w.fillFd then w.(fillFd := g, buffered := []) else w, g, []);
    case Raw(g, maxlen) =>
      RecvDirectConnections(w, g, if maxlen <= 0 || maxlen >= BUFSIZE then BUFSIZE - 1 else maxlen);
    case _ =>
  }

  /**
   After every run, for every open connection: everything it was sent, faults included, was taken by
   its own reads in order or is still pending, if and only if no line read of another descriptor and
   no reset came while bytes of it were buffered.
   */
  lemma {:induction false} TakenExactlyWhen(calls: seq<Call>, fd: int)
    requires (forall c | c in calls :: ValidCall(c)) && fd in After(calls).table
    ensures Delivered(calls, fd) == Taken(calls, fd) + Pending(After(calls), fd) <==> !Dropped(calls, fd)
  {
    RunBalanced(calls, fd);
    BytesJoin(Taken(calls, fd), Pending(After(calls), fd));
  }

  // ----- what is taken and not returned -----

  /** A line read that meets a fault before the line's end, with bytes of the line before it. */
  predicate CutsShort(w: World, call: Call) {
    call.Line? && var stream := Pending(w, call.fd);
    stream != [] && stream[0].Data? && SplitLine(stream, []).fst.None?
  }

  /** Some line read of the connection did. */
  predicate CutShort(calls: seq<Call>, fd: int) {
    calls != [] &&
    var w, call := After(calls[..|calls| - 1]), calls[|calls| - 1];
    !Opens(w, call, fd) && (CutShort(calls[..|calls| - 1], fd) || (ReadsFrom(call, fd) && CutsShort(w, call)))
  }

  /** What a read returns, a line with its terminator. */
  function Returns(w: World, call: Call): seq<Byte>
    requires IsRead(call)
  {
    Apply(w, call).fst + if call.Line? then EndOf(Pending(w, call.fd), []) else []
  }

  /** Every byte returned for the connection, each line with its terminator, in order. */
  function Handed(calls: seq<Call>, fd: int): seq<Byte> {
    if calls == [] then [] else
    var w, call := After(calls[..|calls| - 1]), calls[|calls| - 1];
    if Opens(w, call, fd) then []
    else Handed(calls[..|calls| - 1], fd) + if ReadsFrom(call, fd) then Returns(w, call) else []
  }

  lemma {:induction false} FaultEndsLine(stream: seq<Item>, line: seq<Byte>)
    requires |line| <= LIMIT && SplitLine(stream, line).fst.None?
    ensures EndOf(stream, line) == [] && stream != [] && |SplitLine(stream, line).snd| < |stream|
    decreases LIMIT - |line|
  {
    if stream[0].Data? { FaultEndsLine(stream[1..], line + [stream[0].b]); }
  }

  /** A line read returns what it takes, unless a fault cuts it short; then it returns nothing. */
  lemma {:induction false} LineReturns(stream: seq<Item>)
    ensures var p := SplitLine(stream, []);
            var returned := (if p.fst.Some? then p.fst.value else []) + EndOf(stream, []);
            if p.fst.None? && stream != [] && stream[0].Data? then returned == [] && Bytes(TakesLine(stream)) != []
            else Bytes(TakesLine(stream)) == returned
  {
    var p := SplitLine(stream, []);
    if p.fst.Some? {
      BytesOfItems(p.fst.value + EndOf(stream, []));
    } else {
      FaultEndsLine(stream, []);
      var taken := TakesLine(stream);
      assert taken[0] == stream[0];
      if stream[0].Bad? { assert taken == [Bad]; }
    }
  }

  /** Any read returns the bytes it takes, unless it is a line read that a fault cuts short. */
  lemma {:induction false} ReturnsWhatItTakes(w: World, call: Call)
    requires IsRead(call) && call.fd in w.table
    ensures if CutsShort(w, call) then Returns(w, call) == [] && Bytes(Takes(w, call)) != []
            else Bytes(Takes(w, call)) == Returns(w, call)
  {
    if call.Line? {
      LineReturns(Pending(w, call.fd));
      LineIsSplit(w, call.fd);
    } else {
      var bs := Apply(w, call).fst;
      assert bs + [] == bs;
      BytesOfItems(bs);
      if call.Raw? && bs == [] { assert Bytes([Bad]) == [] && Bytes([]) == []; }
    }
  }

  lemma {:induction false} TakenIsHanded(calls: seq<Call>, fd: int)
    requires (forall c | c in calls :: ValidCall(c)) && fd in After(calls).table
    ensures if CutShort(calls, fd) then |Handed(calls, fd)| < |Bytes(Taken(calls, fd))|
            else Bytes(Taken(calls, fd)) == Handed(calls, fd)
  {
    var n := |calls| - 1;
    var before, call := calls[..n], calls[n];
    var w := After(before);
    if !Opens(w, call, fd) {
      StillOpen(w, call, fd);
      TakenIsHanded(before, fd);
      if ReadsFrom(call, fd) {
        ReturnsWhatItTakes(w, call);
        BytesJoin(Taken(before, fd), Takes(w, call));
      } else {
        assert Taken(before, fd) + [] == Taken(before, fd) && Handed(before, fd) + [] == Handed(before, fd);
      }
    }
  }

  /**
   After every run, for every open connection: the bytes it was sent are the bytes its reads returned,
   with the terminators of the lines, followed by the pending ones, if and only if no line read of
   another descriptor and no reset found bytes of it buffered, and no line read of its own met a fault
   with part of a line read.
   */
  lemma {:induction false} NothingLostExactlyWhen(calls: seq<Call>, fd: int)
    requires (forall c | c in calls :: ValidCall(c)) && fd in After(calls).table
    ensures Bytes(Delivered(calls, fd)) == Handed(calls, fd) + Bytes(Pending(After(calls), fd)) <==>
            !Dropped(calls, fd) && !CutShort(calls, fd)
  {
    RunBalanced(calls, fd);
    TakenIsHanded(calls, fd);
    BytesJoin(Taken(calls, fd), Pending(After(calls), fd));
  }

  // ----- the inputs at which bytes are lost -----

  /** One byte, a failing receive, and a line read: the byte is neither returned nor pending. */
  lemma {:induction false} FaultLosesBytes(fd: int, a: nat)
    requires fd >= 0
    ensures var calls := [Accepted(fd, Socket(a, [Chunk([Byte(65, a)]), Failure])), Line(fd)];
            (forall c | c in calls :: ValidCall(c)) && fd in After(calls).table && !Dropped(calls, fd) &&
            Bytes(Delivered(calls, fd)) == [Byte(65, a)] &&
            Handed(calls, fd) == [] && Pending(After(calls), fd) == []
  {
    var b := Byte(65, a);
    var open := Accepted(fd, Socket(a, [Chunk([b]), Failure]));
    var calls := [open, Line(fd)];
    assert calls[..1] == [open] && [open][..0] == [];
    var w := After([open]);
    HalfLine(b);
    HalfOpened(fd, a);
    LineIsSplit(w, fd);
  }

  lemma {:induction false} HalfOpened(fd: int, a: nat)
    requires fd >= 0
    ensures var b := Byte(65, a); var open := Accepted(fd, Socket(a, [Chunk([b]), Failure]));
            fd in After([open]).table && Pending(After([open]), fd) == [Data(b), Bad] &&
            Delivered([open], fd) == [Data(b), Bad] && Handed([open], fd) == [] && !Dropped([open], fd)
  {
    var b := Byte(65, a);
    var open := Accepted(fd, Socket(a, [Chunk([b]), Failure]));
    assert [open][..0] == [];
    assert After([open]) == Apply(After([]), open).snd;
    HalfLine(b);
  }

  lemma {:induction false} HalfLine(b: Byte)
    requires b.code != LF
    ensures Stream([Chunk([b]), Failure]) == [Data(b), Bad] && Bytes([Data(b), Bad]) == [b]
    ensures SplitLine([Data(b), Bad], []) == Pair(None, []) && EndOf([Data(b), Bad], []) == []
  {
    var script := [Chunk([b]), Failure];
    assert script[1..] == [Failure] && [Failure][1..] == [] && Stream([Failure]) == [Bad];
    var stream := [Data(b), Bad];
    assert stream[1..] == [Bad] && [Bad][1..] == [] && Bytes([Bad]) == [];
    assert SplitLine([Bad], [] + [b]) == Pair(None, []);
    assert EndOf([Bad], [] + [b]) == [];
  }

  function TwoLines(a: nat): seq<Byte> { [Byte(65, a), Byte(LF, a), Byte(66, a), Byte(LF, a)] }

  /** A connection that sends two lines at once, and a read of the first. */
  function FirstOfTwo(fd: int, a: nat): seq<Call> {
    [Accepted(fd, Socket(a, [Chunk(TwoLines(a))])), Line(fd)]
  }

  lemma {:induction false} SecondIsBuffered(fd: int, a: nat)
    requires fd >= 0
    ensures var w := After(FirstOfTwo(fd, a));
            fd in w.table && w.fillFd == fd && w.buffered == [Byte(66, a), Byte(LF, a)]
  {
    var calls := FirstOfTwo(fd, a);
    var open := calls[0];
    assert calls[..1] == [open] && [open][..0] == [];
    var w0 := After([open]);
    assert w0 == Apply(After([]), open).snd;
    assert [Byte(65, a), Byte(LF, a)] + [Byte(66, a), Byte(LF, a)] == TwoLines(a);
    OneLine(World(fd, [], w0.table), fd, a, 65, [Byte(66, a), Byte(LF, a)]);
    LineIsSplit(w0, fd);
  }

  /** Closing a descriptor behind the reader's back is what the rule is about: after a line read of a
      two-line chunk, the next connection with that number is served the previous one's second line. */
  lemma {:induction false} PlainCloseLeaks(fd: int, a: nat, b: nat)
    requires fd >= 0
    ensures var w := After(FirstOfTwo(fd, a));
            var closed := w.(table := w.table - {fd});
            Apply(Accept(closed, fd, Socket(b, [])), Line(fd)).fst == [Byte(66, a)]
  {
    SecondIsBuffered(fd, a);
    var w := After(FirstOfTwo(fd, a));
    var next := Accept(w.(table := w.table - {fd}), fd, Socket(b, []));
    BufferedLine(next, fd, a, 66, []);
  }

  /** And a line read of another descriptor at that point loses the second line. */
  lemma {:induction false} SwitchLosesBytes(fd: int, g: int, a: nat)
    requires fd >= 0 && g != fd
    ensures var calls := FirstOfTwo(fd, a) + [Line(g)];
            (forall c | c in calls :: ValidCall(c)) && fd in After(calls).table &&
            Bytes(Delivered(calls, fd)) != Handed(calls, fd) + Bytes(Pending(After(calls), fd))
  {
    var before := FirstOfTwo(fd, a);
    var calls := before + [Line(g)];
    SecondIsBuffered(fd, a);
    assert calls[..2] == before && calls[2] == Line(g);
    var script := [Chunk(TwoLines(a))];
    assert Stream(script) == Items(TwoLines(a)) + Stream(script[1..]);
    assert After(calls) == Apply(After(before), Line(g)).snd;
    var w := After(before);
    ReadLoopConnections(w.(fillFd := g, buffered := []), g, []);
    NothingLostExactlyWhen(calls, fd);
  }

  lemma {:induction false} BufferedLine(w: World, fd: int, a: nat, code: nat, rest: seq<Byte>)
    requires w.fillFd == fd && code != LF && code != CR && w.buffered == [Byte(code, a), Byte(LF, a)] + rest
    ensures ReadLoop(w, fd, []) == Pair(Some([Byte(code, a)]), w.(buffered := rest))
  {
    var w1 := w.(buffered := [Byte(LF, a)] + rest);
    assert w.buffered[1..] == w1.buffered && w1.buffered[1..] == rest;
    assert [] + [Byte(code, a)] == [Byte(code, a)];
    assert ReadLoop(w1, fd, [Byte(code, a)]) == Pair(Some([Byte(code, a)]), w1.(buffered := rest));
  }

  /** One receive brings the line and what follows it. */
  lemma {:induction false} OneLine(w: World, fd: int, a: nat, code: nat, rest: seq<Byte>)
    requires w.fillFd == fd && w.buffered == [] && code != LF && code != CR && |rest| + 2 <= BUFSIZE
    requires fd in w.table && w.table[fd].script == [Chunk([Byte(code, a), Byte(LF, a)] + rest)]
    ensures var r := ReadLoop(w, fd, []); r.fst == Some([Byte(code, a)]) && r.snd.fillFd == fd && r.snd.buffered == rest
  {
    var got := Receive(w, fd, BUFSIZE);
    assert got.fst == Got([Byte(code, a), Byte(LF, a)] + rest);
    BufferedLine(got.snd.(buffered := got.fst.data), fd, a, code, rest);
  }

  // ----- one byte at a time through the buffer -----

  /** The next byte, refilling an empty buffer with one `recv`. */
  function TakeByte(w: World, fd: int): Pair<Recv, World> {
    if w.buffered != [] then Pair(Got([w.buffered[0]]), w.(buffered := w.buffered[1..])) else
    var got := Receive(w, fd, BUFSIZE);
    if got.fst.Got? then Pair(Got([got.fst.data[0]]), got.snd.(buffered := got.fst.data[1..])) else got
  }

  lemma {:induction false} ReadLoopByByte(w: World, fd: int, line: seq<Byte>)
    requires w.fillFd == fd && |line| < LIMIT
    ensures var t := TakeByte(w, fd);
            ReadLoop(w, fd, line) ==
            match t.fst
            case Eof => Pair(Some(line), t.snd)
            case Eintr => ReadLoop(t.snd, fd, line)
            case Failed => Pair(None, t.snd)
            case Got(c) => if c[0].code == LF then Pair(Some(StripCR(line)), t.snd)
                           else ReadLoop(t.snd, fd, line + [c[0]])
    ensures TakeByte(w, fd).fst.Eintr? ==> ScriptLength(TakeByte(w, fd).snd, fd) < ScriptLength(w, fd)
  {
  }

  // ----- the reader over its buffers -----

  class Reader {
    var fillFd: int
    var fillLen: nat
    var fillPos: nat
    const fillBuf: array<Byte>
    const lineBuf: array<Byte>
    var table: map<int, Socket>

    ghost predicate Valid()
      reads this
    {
      fillBuf.Length == BUFSIZE && lineBuf.Length == BUFSIZE && fillBuf != lineBuf &&
      fillPos <= fillLen <= BUFSIZE
    }

    ghost function State(): World
      requires Valid()
      reads this, fillBuf
    {
      World(fillFd, fillBuf[fillPos..fillLen], table)
    }

    constructor ()
      ensures Valid() && fresh(fillBuf) && fresh(lineBuf) && State() == START
    {
      fillFd, fillLen, fillPos, table := -1, 0, 0, map[];
      fillBuf := new Byte[BUFSIZE](i => Byte(0, 0));
      lineBuf := new Byte[BUFSIZE](i => Byte(0, 0));
    }

    /** recv(fd, sp_net_fill_buf, SP_NET_BUFSIZE, 0) on an empty buffer. */
    method FillFrom(fd: int) returns (r: Recv)
      requires Valid() && fillPos == fillLen
      modifies this`table, fillBuf
      ensures Valid()
      ensures var got := Receive(old(State()), fd, BUFSIZE); r == got.fst && table == got.snd.table
      ensures r.Got? ==> fillBuf[..|r.data|] == r.data
    {
      assert State() == World(fillFd, [], table);
      var got := Receive(World(fillFd, [], table), fd, BUFSIZE);
      r := got.fst;
      table := got.snd.table;
      if r.Got? {
        for i := 0 to |r.data|
          invariant fillBuf[..i] == r.data[..i] && table == got.snd.table
        {
          fillBuf[i] := r.data[i];
        }
      }
    }

    /** The body of the loop up to the byte it looks at. */
    method NextByte(fd: int) returns (r: Recv)
      requires Valid() && fillFd == fd
      modifies this`fillLen, this`fillPos, this`table, fillBuf
      ensures Valid()
      ensures r == TakeByte(old(State()), fd).fst && State() == TakeByte(old(State()), fd).snd
    {
      if fillPos >= fillLen {
        assert State().buffered == [];
        var got := FillFrom(fd);
        if !got.Got? {
          return got;
        }
        fillLen := |got.data|;
        fillPos := 0;
        assert fillBuf[..fillLen] == got.data;
      }
      var c := fillBuf[fillPos];
      assert fillBuf[fillPos..fillLen][1..] == fillBuf[fillPos + 1..fillLen];
      fillPos := fillPos + 1;
      return Got([c]);
    }

    /** A line feed was read: drop one carriage return before it and terminate the line. */
    method EndLine(pos: nat) returns (n: nat)
      requires Valid() && pos <= LIMIT
      modifies lineBuf
      ensures n <= pos && lineBuf[n].code == 0 && lineBuf[..n] == StripCR(old(lineBuf[..pos]))
      ensures n == if pos > 0 && old(lineBuf[pos - 1]).code == 13 then pos - 1 else pos
      ensures lineBuf[..n] == old(lineBuf[..n])
    {
      n := pos;
      if n > 0 && lineBuf[n - 1].code == CR {
        n := n - 1;
      }
      assert lineBuf[..n] == StripCR(lineBuf[..pos]);
      lineBuf[n] := Byte(0, 0);
    }

    /** sp_net_read_line: the length of the line left in the line buffer, or -1. */
    method ReadLineBuffered(fd: int) returns (n: int)
      requires Valid()
      modifies this`fillFd, this`fillLen, this`fillPos, this`table, fillBuf, lineBuf
      ensures Valid()
      ensures State() == ReadLine(old(State()), fd).snd
      ensures n == -1 <==> ReadLine(old(State()), fd).fst.None?
      ensures n != -1 ==> 0 <= n < BUFSIZE && lineBuf[n].code == 0 &&
                          ReadLine(old(State()), fd).fst == Some(lineBuf[..n])
    {
      var nul := Byte(0, 0);
      var pos: nat := 0;
      ghost var want := ReadLine(State(), fd);
      lineBuf[0] := nul;
      if fd != fillFd {
        fillFd := fd;
        fillLen := 0;
        fillPos := 0;
      }
      while pos + 1 < BUFSIZE
        invariant Valid() && pos <= LIMIT && fillFd == fd
        invariant want == ReadLoop(State(), fd, lineBuf[..pos])
        decreases LIMIT - pos, ScriptLength(State(), fd)
      {
        ghost var line := lineBuf[..pos];
        ReadLoopByByte(State(), fd, line);
        var got := NextByte(fd);
        assert lineBuf[..pos] == line;
        match got
        case Eof =>
          lineBuf[pos] := nul;
          return pos;
        case Eintr =>
          continue;
        case Failed =>
          return -1;
        case Got(data) =>
          var c := data[0];
          if c.code == LF {
            n := EndLine(pos);
            return;
          }
          lineBuf[pos] := c;
          pos := pos + 1;
          assert lineBuf[..pos] == line + [c];
      }
      lineBuf[pos] := nul;
      return pos;
    }

    /** sp_net_read_line_buffered_remaining. */
    method BufferedRemaining(fd: int, max: int) returns (out: seq<Byte>)
      requires Valid()
      modifies this`fillPos
      ensures Valid()
      ensures out == Remaining(old(State()), fd, max).fst && State() == Remaining(old(State()), fd, max).snd
    {
      if fd != fillFd || fillPos >= fillLen {
        return [];
      }
      var avail := fillLen - fillPos;
      if max > 0 && avail > max {
        avail := max;
      }
      ghost var buffered := fillBuf[fillPos..fillLen];
      out := fillBuf[fillPos..fillPos + avail];
      assert forall k :: 0 <= k < avail ==> out[k] == buffered[k];
      fillPos := fillPos + avail;
      assert fillBuf[fillPos..fillLen] == buffered[avail..];
    }

    /** sp_net_rl_recv_some: what was read past the last line first, then the socket. */
    method RecvSomeBytes(fd: int, maxlen: int) returns (out: seq<Byte>)
      requires Valid()
      modifies this`fillPos, this`table
      ensures Valid()
      ensures out == RecvSome(old(State()), fd, maxlen).fst && State() == RecvSome(old(State()), fd, maxlen).snd
    {
      var max := maxlen;
      if maxlen <= 0 || maxlen >= BUFSIZE {
        max := BUFSIZE - 1;
      }
      out := BufferedRemaining(fd, max);
      if |out| > 0 {
        return;
      }
      assert State() == old(State());
      var got := RecvDirect(World(fillFd, fillBuf[fillPos..fillLen], table), fd, max);
      RecvDirectConnections(State(), fd, max);
      table := got.snd.table;
      out := got.fst;
    }

    /** sp_net_rl_close: reset, then close. */
    method CloseFd(fd: int)
      requires Valid()
      modifies this`fillFd, this`fillLen, this`fillPos, this`table
      ensures Valid() && State() == Close(old(State()), fd)
    {
      if fd < 0 || fd == fillFd {
        fillLen := 0;
        fillPos := 0;
        fillFd := -1;
      }
      table := table - {fd};
    }
  }
}
