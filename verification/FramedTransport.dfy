/** `FramedTransport`: the resumable receiver and the sender, as written, with
    its state kept between polls in `RecvBuf`, and the `BufferPool`. */
module FramedTransports {
  import opened Bytes
  import opened Framing
  import opened Messages
  import opened Transport

  /** A `Vec<u8>`: its contents and its capacity. */
  datatype Buffer = Buffer(data: seq<byte>, capacity: nat)

  /** `Vec::resize(len, 0)`: old contents stay in front. */
  function Resized(data: seq<byte>, len: nat): (r: seq<byte>)
    ensures |r| == len
  {
    if len <= |data| then data[..len] else data + seq(len - |data|, _ => 0 as byte)
  }

  class BufferPool {
    var bufs: seq<Buffer>
    const maxBufs: nat
    const maxBufBytes: nat

    /** Never more buffers, nor larger ones, than configured. */
    predicate Valid()
      reads this
    {
      |bufs| <= maxBufs && forall b :: b in bufs ==> b.capacity <= maxBufBytes
    }

    constructor WithCapacity(maxBufs: nat, maxBufBytes: nat)
      ensures Valid() && bufs == [] && this.maxBufs == maxBufs && this.maxBufBytes == maxBufBytes
    {
      bufs := [];
      this.maxBufs, this.maxBufBytes := maxBufs, maxBufBytes;
    }

    /** Keep the body buffer of a processed message, if it fits. */
    method Recycle(body: Buffer)
      requires Valid()
      modifies this
      ensures Valid()
      ensures bufs == if |old(bufs)| < maxBufs && body.capacity <= maxBufBytes then old(bufs) + [body] else old(bufs)
    {
      if |bufs| < maxBufs && body.capacity <= maxBufBytes {
        bufs := bufs + [body];
      }
    }

    /** The buffer recycled last, or an empty one. */
    method Take() returns (data: seq<byte>)
      requires Valid()
      modifies this
      ensures Valid()
      ensures old(bufs) == [] ==> data == [] && bufs == []
      ensures old(bufs) != [] ==> data == old(bufs)[|old(bufs)| - 1].data && bufs == old(bufs)[..|old(bufs)| - 1]
    {
      data := [];
      if bufs != [] {
        data := bufs[|bufs| - 1].data;
        bufs := bufs[..|bufs| - 1];
      }
    }
  }

  datatype RecvPhase = Idle | Len | Body

  class FramedTransport {
    const format: Format
    var inner: Stream

    // RecvBuf
    var phase: RecvPhase
    const lenBuf: array<byte>
    var lenFilled: nat
    var body: seq<byte>
    var bodyFilled: nat

    /** All bytes ever read from the stream. */
    ghost var consumed: seq<byte>

    /** The bytes of the current frame. */
    ghost function Part(): seq<byte>
      requires lenBuf.Length == 9 && lenFilled <= 9 && bodyFilled <= |body|
      reads this, lenBuf
    {
      match phase
      case Idle => []
      case Len => lenBuf[..lenFilled]
      case Body => lenBuf[..lenFilled] + body[..bodyFilled]
    }

    /** Holds between polls, that is, at every point where a `recv` future can be
        dropped: a header in the making is incomplete, and so is a body. */
    ghost predicate Valid()
      reads this, lenBuf
    {
      && lenBuf.Length == 9 && lenFilled <= 9 && bodyFilled <= |body|
      && Suspended() && ConnOk(View())
    }

    ghost predicate Suspended()
      requires lenBuf.Length == 9
      reads this, lenBuf
    {
      && (phase.Len? ==> lenFilled < HeaderLen(format))
      && (phase.Body? ==> bodyFilled < |body| && HeaderRead())
    }

    /** The header is complete and announces the body buffer. */
    ghost predicate HeaderRead()
      requires lenBuf.Length == 9
      reads this, lenBuf
    {
      && lenFilled == HeaderLen(format)
      && (format.Ipc? ==> lenBuf[0] == 1)
      && |body| <= MAX_FRAME_BYTES
      && Declared(format, lenBuf[..lenFilled]) == |body|
    }

    ghost function View(): Conn
      requires lenBuf.Length == 9 && lenFilled <= 9 && bodyFilled <= |body|
      reads this, lenBuf
    {
      Conn(format, Part(), consumed, inner)
    }

    /** After the handshake. */
    constructor (format: Format, inner: Stream)
      ensures Valid() && fresh(lenBuf) && View() == NewConn(format, inner)
    {
      this.format, this.inner := format, inner;
      phase, lenBuf, lenFilled, body, bodyFilled := Idle, new byte[9](_ => 0), 0, [], 0;
      consumed := [];
    }

    method Recv() returns (o: Outcome)
      requires Valid()
      modifies this, lenBuf
      ensures Valid()
      ensures (View(), o) == Poll(old(View()))
    {
      o := RecvInner(null);
    }

    /** The same result, whatever the pool holds. */
    method RecvPooled(pool: BufferPool) returns (o: Outcome)
      requires Valid() && pool.Valid()
      modifies this, lenBuf, pool
      ensures Valid() && pool.Valid()
      ensures (View(), o) == Poll(old(View()))
      ensures pool.bufs <= old(pool.bufs)
    {
      o := RecvInner(pool);
    }

    /** A receiving task: any mix of `recv` and `recv_pooled`, each future polled
        once and then dropped unless it is done, messages recycled after use. */
    method ReceiveLoop(pool: BufferPool, pooled: seq<bool>) returns (os: seq<Outcome>)
      requires Valid() && pool.Valid()
      modifies this, lenBuf, pool
      ensures Valid() && pool.Valid()
      ensures (View(), os) == Polls(old(View()), |pooled|)
      ensures Advanced(old(View()), View(), AllEvents(os))
    {
      os := [];
      ghost var start := View();
      ChunkingDoesNotMatter(start, |pooled|);
      for i := 0 to |pooled|
        invariant Valid() && pool.Valid()
        invariant (View(), os) == Polls(start, i)
      {
        PollsLast(start, i);
        var o;
        if pooled[i] {
          o := RecvPooled(pool);
        } else {
          o := Recv();
        }
        os := os + [o];
        if o.Received? {
          pool.Recycle(Buffer(o.msg.body, |o.msg.body|));
        }
      }
    }

    /** One poll of the receive future: resume where the last one stopped, and
        run until a message, an error, or a read that is not ready. */
    method RecvInner(pool: BufferPool?) returns (o: Outcome)
      requires Valid() && (pool != null ==> pool.Valid())
      modifies this, lenBuf, pool
      ensures Valid() && (pool != null ==> pool.Valid() && pool.bufs <= old(pool.bufs))
      ensures (View(), o) == Poll(old(View()))
    {
      ghost var start := View();
      ghost var task := TaskOf(start);
      TaskStarts(start);
      o := Resume(task, pool);
      TaskIsPoll(start, View(), o);
      PollParses(start);
    }

    method Resume(ghost task: Task, pool: BufferPool?) returns (o: Outcome)
      requires lenBuf.Length == 9 && lenFilled <= 9 && bodyFilled <= |body| && Suspended()
      requires task.format == format && OnTrack(task, Part(), consumed, inner)
      requires pool != null ==> pool.Valid()
      modifies this, lenBuf, pool
      ensures pool != null ==> pool.Valid() && pool.bufs <= old(pool.bufs)
      ensures lenFilled <= 9 && bodyFilled <= |body| && Suspended()
      ensures Finishes(task, View(), o)
    {
      hide OnTrack, Finishes, Declared;
      if !phase.Body? {
        StartHeader(task);
        var early := ReadLength(task, pool);
        if early.Some? {
          return early.value;
        }
      }
      var stop := ReadBody(task);
      if stop.Some? {
        return stop.value;
      }
      o := Complete(task);
    }

    method StartHeader(ghost task: Task)
      requires lenBuf.Length == 9 && lenFilled <= 9 && bodyFilled <= |body|
      requires !phase.Body? && Suspended()
      requires OnTrack(task, Part(), consumed, inner)
      modifies this`phase, this`lenFilled
      ensures phase.Len? && lenFilled < HeaderLen(format)
      ensures OnTrack(task, lenBuf[..lenFilled], consumed, inner)
    {
      if phase.Idle? {
        lenFilled := 0;
        phase := Len;
        assert lenBuf[..0] == [];
      }
    }

    /** Hand the body out and reset for the next frame. */
    method Complete(ghost task: Task) returns (o: Outcome)
      requires lenBuf.Length == 9 && lenFilled <= 9 && bodyFilled == |body|
      requires phase.Body? && HeaderRead() && task.format == format
      requires OnTrack(task, Part(), consumed, inner)
      modifies this`phase, this`body, this`bodyFilled
      ensures phase.Idle? && bodyFilled <= |body|
      ensures Finishes(task, View(), o)
    {
      BodyComplete();
      FrameFinishes(task, Part(), consumed, inner);
      phase := Idle;
      var payload := body;
      body, bodyFilled := [], 0;
      o := Received(Msg([], payload));
    }

    /** Phase 1: the header, up to the allocation of the body buffer. */
    method ReadLength(ghost task: Task, pool: BufferPool?) returns (stop: Option<Outcome>)
      requires lenBuf.Length == 9 && phase.Len? && lenFilled < HeaderLen(format) && bodyFilled <= |body|
      requires task.format == format && OnTrack(task, lenBuf[..lenFilled], consumed, inner)
      requires pool != null ==> pool.Valid()
      modifies this, lenBuf, pool
      ensures pool != null ==> pool.Valid() && pool.bufs <= old(pool.bufs)
      ensures lenFilled <= 9 && bodyFilled <= |body|
      ensures stop.None? ==> phase.Body? && HeaderRead() && OnTrack(task, Part(), consumed, inner)
      ensures stop.Some? ==> Suspended() && Finishes(task, View(), stop.value)
    {
      var needed := if format.Tcp? then 8 else 9;
      stop := ReadHeader(task, needed);
      if stop.Some? {
        return;
      }
      var bad := CheckHeader(needed);
      if bad.Some? {
        phase := Idle;
        FrameFinishes(task, lenBuf[..needed], consumed, inner);
        return Some(Failed(BadFrame(bad.value)));
      }
      body := AllocBody(pool, BeValue(lenBuf[needed - 8..needed]));
      bodyFilled := 0;
      phase := Body;
      assert lenBuf[needed - 8..needed] == lenBuf[..needed][needed - 8..needed];
      assert Part() == lenBuf[..needed];
    }

    /** Validate a complete header. */
    method CheckHeader(needed: nat) returns (bad: Option<FrameError>)
      requires lenBuf.Length == 9 && needed == HeaderLen(format)
      ensures bad.Some? ==> ParseOne(format, lenBuf[..needed]) == Frame(Rejected(bad.value), needed)
      ensures bad.None? ==> (format.Ipc? ==> lenBuf[0] == 1) && BeValue(lenBuf[needed - 8..needed]) <= MAX_FRAME_BYTES
    {
      assert lenBuf[needed - 8..needed] == lenBuf[..needed][needed - 8..needed];
      if format.Ipc? && lenBuf[0] != 1 {
        return Some(BadFrameType(lenBuf[0]));
      }
      var payloadLen := BeValue(lenBuf[needed - 8..needed]);
      if payloadLen > MAX_FRAME_BYTES {
        return Some(FrameTooLarge(payloadLen));
      }
      return None;
    }

    /** One `read` of at most the bytes wanted; a read that brings none ends the
        poll with `stop`. */
    method ReadSome(ghost task: Task, ghost part: seq<byte>, max: nat) returns (data: seq<byte>, stop: Option<Outcome>)
      requires task.format == format && OnTrack(task, part, consumed, inner)
      requires ParseOne(format, part).More? && max == Want(format, part)
      modifies this`inner, this`consumed
      ensures stop.None? ==> 0 < |data| <= max && OnTrack(task, part + data, consumed, inner)
      ensures stop.Some? ==> Finishes(task, Conn(format, part, consumed, inner), stop.value)
    {
      var (s, r) := StreamRead(inner, max);
      if r.Got? && r.data != [] {
        ChunkKeepsTrack(task, part, consumed, inner);
        inner, data, stop := s, r.data, None;
        consumed := consumed + data;
      } else {
        NoChunkFinishes(task, part, consumed, inner);
        inner, data := s, [];
        stop := Some(if r.ReadPending? then Pending else if r.ReadFailed? then Failed(Io) else Failed(Closed));
      }
    }

    /** Phase 1: fill `len_buf[..needed]`. */
    method ReadHeader(ghost task: Task, needed: nat) returns (stop: Option<Outcome>)
      requires lenBuf.Length == 9 && lenFilled <= needed == HeaderLen(format)
      requires task.format == format && OnTrack(task, lenBuf[..lenFilled], consumed, inner)
      modifies this`lenFilled, this`inner, this`consumed, lenBuf
      ensures stop.None? ==> lenFilled == needed && OnTrack(task, lenBuf[..needed], consumed, inner)
      ensures stop.Some? ==> lenFilled < needed && Finishes(task, Conn(format, lenBuf[..lenFilled], consumed, inner), stop.value)
    {
      stop := None;
      while lenFilled < needed
        invariant stop.None? && lenFilled <= needed && OnTrack(task, lenBuf[..lenFilled], consumed, inner)
      {
        var data;
        data, stop := ReadSome(task, lenBuf[..lenFilled], needed - lenFilled);
        if stop.Some? {
          return;
        }
        FillHeader(data);
      }
    }

    /** The bytes read land behind those already there. */
    method FillHeader(data: seq<byte>)
      requires lenBuf.Length == 9 && lenFilled + |data| <= 9
      modifies this`lenFilled, lenBuf
      ensures lenFilled == old(lenFilled) + |data|
      ensures lenBuf[..lenFilled] == old(lenBuf[..lenFilled]) + data
    {
      forall i | 0 <= i < |data| {
        lenBuf[lenFilled + i] := data[i];
      }
      lenFilled := lenFilled + |data|;
    }

    /** The `alloc_body` closures of `recv` and `recv_pooled`. */
    method AllocBody(pool: BufferPool?, len: nat) returns (buf: seq<byte>)
      requires pool != null ==> pool.Valid()
      modifies pool
      ensures |buf| == len
      ensures pool != null ==> pool.Valid() && pool.bufs <= old(pool.bufs)
      ensures pool != null && old(pool.bufs) != [] ==> |pool.bufs| == |old(pool.bufs)| - 1
    {
      if pool == null {
        buf := seq(len, _ => 0 as byte);
      } else {
        buf := pool.Take();
        buf := Resized(buf, len);
      }
    }

    /** Phase 2: fill the body. */
    method ReadBody(ghost task: Task) returns (stop: Option<Outcome>)
      requires lenBuf.Length == 9 && lenFilled <= 9 && bodyFilled <= |body|
      requires phase.Body? && HeaderRead() && task.format == format
      requires OnTrack(task, Part(), consumed, inner)
      modifies this`body, this`bodyFilled, this`inner, this`consumed
      ensures bodyFilled <= |body| && HeaderRead()
      ensures stop.None? ==> bodyFilled == |body| && OnTrack(task, Part(), consumed, inner)
      ensures stop.Some? ==> bodyFilled < |body| && Finishes(task, View(), stop.value)
    {
      stop := None;
      while bodyFilled < |body|
        invariant stop.None? && bodyFilled <= |body| && HeaderRead()
        invariant OnTrack(task, Part(), consumed, inner)
        decreases |body| - bodyFilled
      {
        BodyIncomplete();
        var data;
        data, stop := ReadSome(task, Part(), |body| - bodyFilled);
        if stop.Some? {
          return;
        }
        FillBody(data);
      }
    }

    method FillBody(data: seq<byte>)
      requires lenBuf.Length == 9 && lenFilled <= 9 && phase.Body? && bodyFilled + |data| <= |body|
      modifies this`body, this`bodyFilled
      ensures |body| == |old(body)| && bodyFilled == old(bodyFilled) + |data|
      ensures Part() == old(Part()) + data
    {
      ghost var had := body[..bodyFilled];
      body := body[..bodyFilled] + data + body[bodyFilled + |data|..];
      bodyFilled := bodyFilled + |data|;
      assert body[..bodyFilled] == had + data;
    }

    lemma {:induction false} BodyIncomplete()
      requires lenBuf.Length == 9 && lenFilled <= 9 && bodyFilled < |body|
      requires phase.Body? && HeaderRead()
      ensures ParseOne(format, Part()).More? && Want(format, Part()) == |body| - bodyFilled
    {
      var h := HeaderLen(format);
      assert Part()[h - 8..h] == lenBuf[..lenFilled][h - 8..h];
    }

    lemma {:induction false} BodyComplete()
      requires lenBuf.Length == 9 && lenFilled <= 9 && bodyFilled == |body|
      requires phase.Body? && HeaderRead()
      ensures ParseOne(format, Part()) == Frame(Payload(body), |Part()|)
    {
      var h := HeaderLen(format);
      assert Part()[h - 8..h] == lenBuf[..lenFilled][h - 8..h];
      assert Part()[h..h + |body|] == body;
    }

    // ── Sending ───────────────────────────────────────────────────────────

    method WriteAll(buf: seq<byte>) returns (e: Option<TransportError>)
      modifies this`inner
      ensures (inner, e) == WriteAllSpec(old(inner), buf)
    {
      var written := 0;
      while written < |buf|
        invariant written <= |buf|
        invariant WriteAllSpec(inner, buf[written..]) == WriteAllSpec(old(inner), buf)
      {
        var (s, w) := StreamWrite(inner, buf[written..]);
        inner := s;
        match w
        case WriteFailed => return Some(Io);
        case Wrote(n) =>
          if n == 0 {
            return Some(Closed);
          }
          assert buf[written..][n..] == buf[written + n..];
          written := written + n;
      }
      e := None;
    }

    /** A send succeeds exactly when the write schedule takes the whole frame. */
    method Send(msg: Msg) returns (e: Option<TransportError>)
      requires Valid()
      modifies this`inner
      ensures Valid()
      ensures (View(), e) == SendOn(old(View()), msg)
      ensures e.None? <==> SendEnd(old(View()), msg).Through?
      ensures e == Some(Closed) <==> SendEnd(old(View()), msg).Stopped? && SendEnd(old(View()), msg).cause.Refuse?
      ensures EndedAs(old(inner), FrameBytes(format, PayloadOf(msg)), (inner, e), SendEnd(old(View()), msg))
    {
      hide SendEnd, FrameBytes, EndedAs, SendSpec, ParseAll;
      SendIsDecided(View(), msg);
      e := SendBuffers(msg);
    }

    method SendBuffers(msg: Msg) returns (e: Option<TransportError>)
      requires lenBuf.Length == 9 && lenFilled <= 9 && bodyFilled <= |body|
      modifies this`inner
      ensures (View(), e) == SendOn(old(View()), msg)
    {
      var total := |msg.header| + |msg.body|;
      e := None;
      if format.Ipc? {
        e := WriteAll([1]);
        if e.Some? { return; }
      }
      e := WriteAll(BeBytes(total, 8));
      if e.Some? { return; }
      if msg.header != [] {
        e := WriteAll(msg.header);
        if e.Some? { return; }
      }
      if msg.body != [] {
        e := WriteAll(msg.body);
      }
    }
  }
}
