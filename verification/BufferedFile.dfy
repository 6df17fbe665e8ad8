/**
 buffered_file.c: the output side of a migration. What the backend does not take at once is kept in a
 growing buffer and delivered later, in order.
 */
module BufferedFile {
  type Byte = bv8

  const EAGAIN := 11
  const EINVAL := 22

  /** No answer of the backend is zero. */
  ghost predicate NoZero(answers: seq<int>) {
    forall i :: 0 <= i < |answers| ==> answers[i] != 0
  }

  /** Every answer is a number of bytes or a request to come back later. */
  ghost predicate Good(answers: seq<int>) {
    forall i :: 0 <= i < |answers| ==> answers[i] > 0 || answers[i] == -EAGAIN
  }

  /** Why a loop that hands bytes to the backend stops: nothing left, try again later, the transfer
      limit, an answer of zero, or an error. */
  datatype Stop = Done | Again | Limit | Zero | Failure(error: int)

  datatype Outcome = Outcome(sent: nat, used: nat, stop: Stop)

  /** What becomes of `n` bytes: how many the backend takes, how many of its answers that uses up, and
      why it ends. With a limit, `xfer` bytes have been transferred already. */
  function Drive(n: nat, answers: seq<int>, limited: bool, xfer: nat, limit: nat): (o: Outcome)
    ensures o.sent <= n && o.used <= |answers| && (o.stop == Done <==> o.sent == n) && (o.stop == Limit ==> limited)
    ensures o.stop.Failure? ==> o.stop.error < 0
    decreases |answers|
  {
    if n == 0 then Outcome(0, 0, Done)
    else if limited && xfer > limit then Outcome(0, 0, Limit)
    else if answers == [] then Outcome(0, 0, Again)
    else
      var a := answers[0];
      if a == -EAGAIN then Outcome(0, 1, Again)
      else if a == 0 then Outcome(0, 1, Zero)
      else if a < 0 then Outcome(0, 1, Failure(a))
      else
        var k := if a < n then a else n;
        var o := Drive(n - k, answers[1..], limited, xfer + k, limit);
        Outcome(k + o.sent, 1 + o.used, o.stop)
  }

  lemma {:induction false} DriveAnswers(n: nat, answers: seq<int>, limited: bool, xfer: nat, limit: nat)
    ensures var o := Drive(n, answers, limited, xfer, limit);
            (NoZero(answers) ==> !o.stop.Zero? && NoZero(answers[o.used..])) &&
            (Good(answers) ==> !o.stop.Zero? && !o.stop.Failure? && Good(answers[o.used..]))
    decreases |answers|
  {
    var o := Drive(n, answers, limited, xfer, limit);
    if n > 0 && !(limited && xfer > limit) && answers != [] && answers[0] > 0 {
      var k := if answers[0] < n then answers[0] else n;
      DriveAnswers(n - k, answers[1..], limited, xfer + k, limit);
      assert answers[o.used..] == answers[1..][o.used - 1..];
    }
  }

  /** An error is the last answer used. */
  lemma {:induction false} DriveError(n: nat, answers: seq<int>, limited: bool, xfer: nat, limit: nat)
    ensures var o := Drive(n, answers, limited, xfer, limit);
            o.stop.Failure? ==> o.used > 0 && o.stop.error == answers[o.used - 1] != -EAGAIN
    decreases |answers|
  {
    hide Drive;
    if n == 0 || (limited && xfer > limit) {
      DriveStops(n, answers, limited, xfer, limit);
    } else {
      DriveTurn(n, answers, limited, xfer, limit);
      if answers != [] && answers[0] > 0 {
        var k := if answers[0] < n then answers[0] else n;
        DriveError(n - k, answers[1..], limited, xfer + k, limit);
      }
    }
  }

  /** One turn of such a loop. */
  lemma DriveTurn(n: nat, answers: seq<int>, limited: bool, xfer: nat, limit: nat)
    requires n > 0 && !(limited && xfer > limit)
    ensures var o := Drive(n, answers, limited, xfer, limit);
            if answers == [] then o == Outcome(0, 0, Again)
            else if answers[0] == -EAGAIN then o == Outcome(0, 1, Again)
            else if answers[0] == 0 then o == Outcome(0, 1, Zero)
            else if answers[0] < 0 then o == Outcome(0, 1, Failure(answers[0]))
            else
              var k := if answers[0] < n then answers[0] else n;
              var q := Drive(n - k, answers[1..], limited, xfer + k, limit);
              o == Outcome(k + q.sent, 1 + q.used, q.stop)
  {
  }

  lemma DriveStops(n: nat, answers: seq<int>, limited: bool, xfer: nat, limit: nat)
    requires n == 0 || (limited && xfer > limit)
    ensures Drive(n, answers, limited, xfer, limit) == Outcome(0, 0, if n == 0 then Done else Limit)
  {
  }

  /** A loop that has sent `sent` bytes and has `q` before it. */
  predicate Along(o: Outcome, sent: nat, used: nat, q: Outcome) {
    o == Outcome(sent + q.sent, used + q.used, q.stop)
  }

  lemma AnotherPiece(sent: seq<Byte>, all: seq<Byte>, offset: nat, r: nat)
    requires offset + r <= |all|
    ensures sent + all[..offset] + all[offset..][..r] == sent + all[..offset + r]
  {
    assert all[..offset] + all[offset..][..r] == all[..offset + r];
  }

  /** What a put does after the flush `f`. */
  function DriveAfter(f: Outcome, size: nat, answers: seq<int>, xfer: nat, limit: nat): (o: Outcome)
    requires f.used <= |answers|
    ensures o.sent <= size && f.used + o.used <= |answers| && (o.stop.Failure? ==> o.stop.error < 0)
  {
    if f.stop.Again? then Outcome(0, 0, Again) else Drive(size, answers[f.used..], true, xfer, limit)
  }

  /** What a put appends to the buffer; after a failing answer it starts too early. */
  ghost function Appended(p: Outcome, buf: seq<Byte>, before: seq<Byte>): seq<Byte>
    requires p.sent <= |buf|
  {
    if p.stop.Zero? || p.stop.Failure? then before + buf else buf[p.sent..]
  }

  /** Exactly when a put keeps the stream in order: the flush failed and nothing was accepted; or the
      direct loop got no answer of zero and, if the flush did, what the loop delivered past the
      bytes left in the buffer makes no difference. */
  ghost predicate KeepsOrder(kept: seq<Byte>, buf: seq<Byte>, answers: seq<int>, xfer: nat, limit: nat) {
    var f := Drive(|kept|, answers, false, 0, 0);
    var p := DriveAfter(f, |buf|, answers, xfer, limit);
    var left, past := kept[f.sent..], buf[..p.sent];
    f.stop.Failure? ||
    (!p.stop.Zero? && (f.stop.Zero? ==> if p.stop.Failure? then past <= left + buf else past + left == left + past))
  }

  class QEMUFileBuffered {
    var error: int               // the error of the file this buffers for
    var freezeOutput: bool
    var bytesXfer: nat
    var xferLimit: nat
    var buffer: array<Byte>      // its length is buffer_capacity
    var bufferSize: nat
    var answers: seq<int>        // what the backend will answer, call by call; then -EAGAIN
    var delivered: seq<Byte>     // what the backend has taken
    ghost var accepted: seq<Byte>

    ghost predicate Valid()
      reads this
    {
      bufferSize <= buffer.Length
    }

    ghost function Buffered(): seq<Byte>
      reads this, buffer
      requires Valid()
    {
      buffer[..bufferSize]
    }

    /** What was delivered and what is buffered is what was accepted, in order; after an error what
        was delivered is still the beginning of it. */
    ghost predicate Fifo()
      reads this, buffer
    {
      Valid() && if error == 0 then delivered + Buffered() == accepted else delivered <= accepted
    }

    constructor (answers: seq<int>, xferLimit: nat)
      ensures Fifo() && accepted == [] && delivered == [] && error == 0 && fresh(buffer) && this.answers == answers
    {
      error, freezeOutput, bytesXfer, this.xferLimit := 0, false, 0, xferLimit;
      buffer, bufferSize := new Byte[0], 0;
      this.answers, delivered, accepted := answers, [], [];
    }

    /** put_buffer of the backend: it takes some of the bytes, or answers zero or an error. */
    method Backend(bytes: seq<Byte>) returns (ret: int)
      requires 0 < |bytes|
      modifies this`answers, this`delivered
      ensures ret <= |bytes| && delivered == old(delivered) + if ret > 0 then bytes[..ret] else []
      ensures NoZero(old(answers)) ==> ret != 0 && NoZero(answers)
      ensures |answers| <= |old(answers)|
      ensures old(answers) == [] ==> ret == -EAGAIN
      ensures old(answers) != [] ==> answers == old(answers)[1..]
      ensures old(answers) != [] ==> ret == if old(answers)[0] < |bytes| then old(answers)[0] else |bytes|
    {
      ret := -EAGAIN;
      if answers != [] {
        ret := if answers[0] < |bytes| then answers[0] else |bytes|;
        answers := answers[1..];
      }
      if ret > 0 { delivered := delivered + bytes[..ret]; }
    }

    /** buffered_append: the buffer grows when the bytes do not fit. */
    method Append(bytes: seq<Byte>)
      requires Valid()
      modifies this`buffer, this`bufferSize, buffer
      ensures Valid() && Buffered() == old(Buffered()) + bytes && (buffer == old(buffer) || fresh(buffer))
    {
      ghost var was := Buffered();
      var size := bufferSize;
      if |bytes| > buffer.Length - size {
        var bigger := new Byte[buffer.Length + |bytes| + 1024];
        CopyFront(buffer, bigger, size);
        buffer := bigger;
      }
      CopyAt(bytes, buffer, size);
      bufferSize := size + |bytes|;
      assert buffer[..bufferSize] == buffer[..size] + buffer[size..size + |bytes|];
    }

    /** memmove of what is left to the front of the buffer. */
    method MoveDown(offset: nat)
      requires Valid() && offset <= bufferSize
      modifies this`bufferSize, buffer
      ensures Valid() && Buffered() == old(Buffered())[offset..]
    {
      var left := bufferSize - offset;
      for i := 0 to left
        invariant bufferSize == old(bufferSize)
        invariant forall j :: 0 <= j < buffer.Length ==> buffer[j] == if j < i && j < left then old(buffer[j + offset]) else old(buffer[j])
      {
        buffer[i] := buffer[i + offset];
      }
      bufferSize := left;
    }

    /** buffered_flush: as many bytes leave the front of the buffer as the backend takes. */
    method Flush() returns (ret: int)
      requires Valid()
      modifies this`freezeOutput, this`error, this`bufferSize, this`answers, this`delivered, buffer
      ensures Valid()
      ensures old(error) != 0 ==> ret == old(error) && unchanged(this) && Buffered() == old(Buffered())
      ensures old(error) == 0 ==>
                var o := Drive(old(bufferSize), old(answers), false, 0, 0);
                && delivered == old(delivered) + old(Buffered())[..o.sent] && Buffered() == old(Buffered())[o.sent..]
                && answers == old(answers)[o.used..] && freezeOutput == (old(freezeOutput) || o.stop.Again?)
                && ret == error == if o.stop.Failure? then o.stop.error else 0
    {
      hide Drive;
      if error != 0 { return error; }
      var offset;
      offset, ret := FlushLoop();
      if offset > 0 { MoveDown(offset); }
    }

    /** The loop of buffered_flush. */
    method FlushLoop() returns (offset: nat, ret: int)
      requires Valid() && error == 0
      modifies this`freezeOutput, this`error, this`answers, this`delivered
      ensures var o := Drive(bufferSize, old(answers), false, 0, 0);
              && offset == o.sent && delivered == old(delivered) + Buffered()[..o.sent]
              && answers == old(answers)[o.used..] && freezeOutput == (old(freezeOutput) || o.stop.Again?)
              && ret == error == if o.stop.Failure? then o.stop.error else 0
    {
      hide Drive;
      offset, ret := 0, 0;
      ghost var all, was, sent := Buffered(), answers, delivered;
      ghost var o, used := Drive(|all|, answers, false, 0, 0), 0;
      assert was[0..] == was && sent + all[..0] == sent;
      while offset < bufferSize
        invariant offset <= |all| && error == 0 && ret == 0 && delivered == sent + all[..offset]
        invariant freezeOutput == old(freezeOutput) && used <= |was| && answers == was[used..]
        invariant Along(o, offset, used, Drive(|all| - offset, answers, false, 0, 0))
        decreases bufferSize - offset
      {
        DriveTurn(|all| - offset, answers, false, 0, 0);
        var r := Backend(buffer[offset..bufferSize]);
        assert used < |was| ==> was[used..][1..] == was[used + 1..];
        if r == -EAGAIN {
          freezeOutput := true;
          return;
        }
        if r <= 0 {
          error := r;
          ret := r;
          return;
        }
        DriveUnlimited(|all| - offset - r, answers, r);
        AnotherPiece(sent, all, offset, r);
        used := used + 1;
        offset := offset + r;
      }
      DriveStops(0, answers, false, 0, 0);
    }

    /** The loop of buffered_put_buffer: bytes go straight to the backend while it takes them.
        `failed` says that it answered zero or an error. */
    method PutDirect(buf: seq<Byte>) returns (offset: nat, failed: bool)
      requires Valid() && error == 0
      modifies this`freezeOutput, this`error, this`bytesXfer, this`answers, this`delivered
      ensures var o := if old(freezeOutput) then Outcome(0, 0, Again)
                       else Drive(|buf|, old(answers), true, old(bytesXfer), xferLimit);
              && offset == o.sent && delivered == old(delivered) + buf[..o.sent] && answers == old(answers)[o.used..]
              && (failed <==> o.stop.Zero? || o.stop.Failure?)
              && error == if o.stop.Failure? then o.stop.error else 0
    {
      hide Drive;
      ghost var was, sent := answers, delivered;
      ghost var o, used := if freezeOutput then Outcome(0, 0, Again) else Drive(|buf|, answers, true, bytesXfer, xferLimit), 0;
      assert was[0..] == was && sent + buf[..0] == sent;
      offset, failed := 0, false;
      while !freezeOutput && offset < |buf|
        invariant offset <= |buf| && delivered == sent + buf[..offset] && error == 0 && !failed
        invariant used <= |was| && answers == was[used..] && freezeOutput == old(freezeOutput)
        invariant if freezeOutput then offset == used == 0
                  else Along(o, offset, used, Drive(|buf| - offset, answers, true, bytesXfer, xferLimit))
        decreases |buf| - offset
      {
        if bytesXfer > xferLimit {
          DriveStops(|buf| - offset, answers, true, bytesXfer, xferLimit);
          return;
        }
        DriveTurn(|buf| - offset, answers, true, bytesXfer, xferLimit);
        var ret := Backend(buf[offset..]);
        assert used < |was| ==> was[used..][1..] == was[used + 1..];
        if ret == -EAGAIN {
          freezeOutput := true;
          return;
        }
        if ret <= 0 {
          error := ret;
          failed := true;
          return;
        }
        AnotherPiece(sent, buf, offset, ret);
        used := used + 1;
        offset := offset + ret;
        bytesXfer := bytesXfer + ret;
      }
      if !freezeOutput { DriveStops(|buf| - offset, answers, true, bytesXfer, xferLimit); }
    }

    /** buffered_put_buffer. After a failing answer the offset is -EINVAL, so that what is appended
        starts that far before the caller's bytes: `before` is what memory holds there. The ghost
        stream `accepted` grows whenever the caller is told that the bytes were taken. */
    method PutBuffer(buf: seq<Byte>, before: seq<Byte>) returns (ret: int)
      requires Valid() && |before| == EINVAL
      modifies this, buffer
      ensures Valid() && (buffer == old(buffer) || fresh(buffer)) && xferLimit == old(xferLimit)
      ensures old(error) != 0 ==> ret == old(error) == error && accepted == old(accepted) && delivered == old(delivered)
      ensures old(error) != 0 ==> answers == old(answers)
      ensures old(error) == 0 ==>
                var kept := old(Buffered());
                var f := Drive(|kept|, old(answers), false, 0, 0);
                var p := DriveAfter(f, |buf|, old(answers), old(bytesXfer), xferLimit);
                if f.stop.Failure? then
                  && ret == error == f.stop.error && accepted == old(accepted) && answers == old(answers)[f.used..]
                  && delivered == old(delivered) + kept[..f.sent] && Buffered() == kept[f.sent..]
                else
                  && ret == |buf| && accepted == old(accepted) + buf && answers == old(answers)[f.used..][p.used..]
                  && delivered == old(delivered) + kept[..f.sent] + buf[..p.sent]
                  && error == (if p.stop.Failure? then p.stop.error else 0)
                  && Buffered() == kept[f.sent..] + Appended(p, buf, before)
      ensures old(Fifo()) ==>
                (Fifo() <==> old(error) != 0 || KeepsOrder(old(Buffered()), buf, old(answers), old(bytesXfer), xferLimit))
    {
      hide Drive, DriveAfter;
      if error != 0 { return error; }
      ghost var kept, sent, was := Buffered(), delivered, accepted;
      ghost var f := Drive(|kept|, answers, false, 0, 0);
      ghost var p := DriveAfter(f, |buf|, answers, bytesXfer, xferLimit);
      AfterAgain(f, |buf|, answers, bytesXfer, xferLimit);
      ret := FlushAndPut(buf, before);
      FlushOrder(sent, kept, was, f.sent);
      if !f.stop.Failure? && sent + kept == was { PutOrder(sent, kept, was, buf, before, f, p); }
    }

    /** buffered_put_buffer on a file without an error. */
    method FlushAndPut(buf: seq<Byte>, before: seq<Byte>) returns (ret: int)
      requires Valid() && |before| == EINVAL && error == 0
      modifies this, buffer
      ensures Valid() && (buffer == old(buffer) || fresh(buffer)) && xferLimit == old(xferLimit)
      ensures var kept := old(Buffered());
              var f := Drive(|kept|, old(answers), false, 0, 0);
              var p := DriveAfter(f, |buf|, old(answers), old(bytesXfer), xferLimit);
              if f.stop.Failure? then
                && ret == error == f.stop.error && accepted == old(accepted) && answers == old(answers)[f.used..]
                && delivered == old(delivered) + kept[..f.sent] && Buffered() == kept[f.sent..]
              else
                && ret == |buf| && accepted == old(accepted) + buf && answers == old(answers)[f.used..][p.used..]
                && delivered == old(delivered) + kept[..f.sent] + buf[..p.sent]
                && error == (if p.stop.Failure? then p.stop.error else 0)
                && Buffered() == kept[f.sent..] + Appended(p, buf, before)
    {
      hide Drive, Appended;
      freezeOutput := false;
      ret := Flush();
      if ret != 0 { return; }
      ret := PutRest(buf, before);
    }

    /** The second half of buffered_put_buffer: some bytes go out, the rest is appended. */
    method PutRest(buf: seq<Byte>, before: seq<Byte>) returns (ret: int)
      requires Valid() && |before| == EINVAL && error == 0
      modifies this, buffer
      ensures Valid() && (buffer == old(buffer) || fresh(buffer)) && xferLimit == old(xferLimit)
      ensures ret == |buf| && accepted == old(accepted) + buf
      ensures var p := if old(freezeOutput) then Outcome(0, 0, Again)
                       else Drive(|buf|, old(answers), true, old(bytesXfer), xferLimit);
              && delivered == old(delivered) + buf[..p.sent] && answers == old(answers)[p.used..]
              && error == (if p.stop.Failure? then p.stop.error else 0)
              && Buffered() == old(Buffered()) + Appended(p, buf, before)
    {
      hide Drive;
      ghost var kept := Buffered();
      var offset, failed := PutDirect(buf);
      if failed {
        Append(before + buf);
      } else if |buf| - offset > 0 {
        Append(buf[offset..]);
      } else {
        assert buf[offset..] == [] && kept + [] == kept;
      }
      ret := |buf|;
      accepted := accepted + buf;
    }

    /** buffered_rate_tick, up to the notification of the client. */
    method RateTick()
      requires Valid()
      modifies this, buffer
      ensures Valid() && buffer == old(buffer) && accepted == old(accepted) && xferLimit == old(xferLimit)
      ensures old(error) != 0 || old(freezeOutput) ==> delivered == old(delivered) && error == old(error) && answers == old(answers)
      ensures old(error) == 0 && !old(freezeOutput) ==>
                var o := Drive(old(bufferSize), old(answers), false, 0, 0);
                && delivered == old(delivered) + old(Buffered())[..o.sent] && Buffered() == old(Buffered())[o.sent..]
                && answers == old(answers)[o.used..] && error == if o.stop.Failure? then o.stop.error else 0
      ensures old(Fifo()) ==> Fifo()
    {
      hide Drive;
      if error != 0 || freezeOutput { return; }
      bytesXfer := 0;
      ghost var kept := Buffered();
      var _ := Flush();
      assert forall k :: 0 <= k <= |kept| ==> kept == kept[..k] + kept[k..];
    }
  }

  lemma {:induction false} DriveUnlimited(n: nat, answers: seq<int>, x: nat)
    ensures Drive(n, answers, false, x, 0) == Drive(n, answers, false, 0, 0)
    decreases |answers|
  {
    if n > 0 && answers != [] && answers[0] > 0 {
      var k := if answers[0] < n then answers[0] else n;
      DriveUnlimited(n - k, answers[1..], x + k);
      DriveUnlimited(n - k, answers[1..], k);
    }
  }

  /** The stream after a put that delivered `x` bytes of the buffer and then `y` of its own. */
  lemma OrderDecided(sent: seq<Byte>, kept: seq<Byte>, buf: seq<Byte>, before: seq<Byte>, x: nat, y: nat)
    requires x <= |kept| && y <= |buf| && |before| > 0
    ensures var all, now, left, past := sent + kept + buf, sent + kept[..x] + buf[..y], kept[x..], buf[..y];
            (now + (left + buf[y..]) == all <==> past + left == left + past) &&
            now + (left + (before + buf)) != all && (now <= all <==> past <= left + buf)
  {
    var left, past, head := kept[x..], buf[..y], sent + kept[..x];
    assert sent + kept + buf == head + (left + buf) by { assert kept == kept[..x] + left; }
    assert |head + past + (left + (before + buf))| > |head + (left + buf)|;
    Overtaken(head, left, past, buf[y..]);
    assert buf == past + buf[y..];
    SamePrefix(head, past, left + buf);
  }

  lemma Overtaken(head: seq<Byte>, left: seq<Byte>, past: seq<Byte>, tail: seq<Byte>)
    ensures head + past + (left + tail) == head + (left + (past + tail)) <==> past + left == left + past
  {
    assert head + past + (left + tail) == head + (past + left + tail);
    assert head + (left + (past + tail)) == head + (left + past + tail);
    Same(head, past + left + tail, left + past + tail);
    SameFront(past + left, left + past, tail);
  }

  lemma SamePrefix(head: seq<Byte>, a: seq<Byte>, b: seq<Byte>)
    ensures head + a <= head + b <==> a <= b
  {
    if head + a <= head + b { assert a == (head + b)[|head|..][..|a|]; }
    if a <= b { assert head + a == (head + b)[..|head| + |a|]; }
  }

  lemma AfterAgain(f: Outcome, size: nat, answers: seq<int>, xfer: nat, limit: nat)
    requires f.used <= |answers|
    ensures f.stop == Again ==> DriveAfter(f, size, answers, xfer, limit) == Outcome(0, 0, Again)
  {
  }

  lemma FlushOrder(sent: seq<Byte>, kept: seq<Byte>, accepted: seq<Byte>, x: nat)
    requires x <= |kept|
    ensures sent + kept[..x] + kept[x..] == sent + kept
    ensures sent + kept == accepted ==> sent + kept[..x] <= accepted
  {
    assert kept == kept[..x] + kept[x..];
  }

  /** The same for the outcomes of the two loops of a put. */
  lemma PutOrder(sent: seq<Byte>, kept: seq<Byte>, accepted: seq<Byte>, buf: seq<Byte>, before: seq<Byte>, f: Outcome, p: Outcome)
    requires f.sent <= |kept| && p.sent <= |buf| && |before| > 0 && sent + kept == accepted && !f.stop.Failure?
    requires f.stop == Done ==> f.sent == |kept|
    requires f.stop == Again ==> p == Outcome(0, 0, Again)
    requires f.stop != Limit
    ensures var now, all := sent + kept[..f.sent] + buf[..p.sent], accepted + buf;
            var left, past := kept[f.sent..], buf[..p.sent];
            var order := !p.stop.Zero? && (f.stop.Zero? ==> if p.stop.Failure? then past <= left + buf else past + left == left + past);
            if p.stop.Failure? then now <= all <==> order
            else now + (left + Appended(p, buf, before)) == all <==> order
  {
    OrderDecided(sent, kept, buf, before, f.sent, p.sent);
    var left, past := kept[f.sent..], buf[..p.sent];
    assert left == [] || past == [] || f.stop.Zero?;
    assert left == [] ==> past + left == left + past;
    assert past == [] ==> past + left == left + past && past <= left + buf;
    assert left == [] ==> past <= left + buf;
  }

  lemma Same(head: seq<Byte>, a: seq<Byte>, b: seq<Byte>)
    ensures head + a == head + b <==> a == b
  {
    if head + a == head + b { assert a == (head + a)[|head|..] && b == (head + b)[|head|..]; }
  }

  lemma SameFront(a: seq<Byte>, b: seq<Byte>, tail: seq<Byte>)
    requires |a| == |b|
    ensures a + tail == b + tail <==> a == b
  {
    if a + tail == b + tail { assert a == (a + tail)[..|a|] && b == (b + tail)[..|b|]; }
  }

  method CopyAt(bytes: seq<Byte>, to: array<Byte>, at: nat)
    requires at + |bytes| <= to.Length
    modifies to
    ensures to[..at] == old(to[..at]) && to[at..at + |bytes|] == bytes
  {
    for i := 0 to |bytes|
      invariant to[..at] == old(to[..at]) && to[at..at + i] == bytes[..i]
    {
      to[at + i] := bytes[i];
    }
  }

  method CopyFront(from: array<Byte>, to: array<Byte>, n: nat)
    requires from != to && n <= from.Length && n <= to.Length
    modifies to
    ensures to[..n] == from[..n]
  {
    for i := 0 to n
      invariant to[..i] == from[..i]
    {
      to[i] := from[i];
    }
  }

  datatype Event = Put(buf: seq<Byte>, before: seq<Byte>) | Tick

  /** Everything that was put, in order. */
  ghost function AllPut(events: seq<Event>, n: nat): seq<Byte>
    requires n <= |events|
  {
    if n == 0 then [] else AllPut(events, n - 1) + if events[n - 1].Put? then events[n - 1].buf else []
  }

  /** Over every sequence of puts and ticks. What was accepted is what the first puts brought, all of
      them if there is no error, and an error is one of the answers. If the backend only takes bytes or
      asks to come back later, there is no error, and what was delivered, followed by what is buffered,
      is all that was put. With errors, but no answer of zero, what was delivered is still a prefix of
      what was accepted. The buffer never outgrows its capacity. */
  method Run(events: seq<Event>, answers: seq<int>, xferLimit: nat) returns (f: QEMUFileBuffered)
    requires forall i :: 0 <= i < |events| && events[i].Put? ==> |events[i].before| == EINVAL
    ensures f.Valid()
    ensures exists n: nat :: n <= |events| && f.accepted == AllPut(events, n) && (f.error == 0 ==> n == |events|)
    ensures f.error != 0 ==> f.error < 0 && f.error != -EAGAIN && f.error in answers
    ensures NoZero(answers) ==> f.Fifo() && (f.error == 0 ==> f.delivered + f.Buffered() == AllPut(events, |events|))
    ensures Good(answers) ==> f.error == 0 && f.delivered + f.Buffered() == AllPut(events, |events|)
  {
    hide Drive, AllPut, NoZero, Good;
    f := new QEMUFileBuffered(answers, xferLimit);
    AllPutTurn(events, 0);
    GoodIsNoZero(answers);
    ghost var n := 0;
    for i := 0 to |events|
      invariant fresh(f) && fresh(f.buffer) && f.Valid()
      invariant NoZero(answers) ==> NoZero(f.answers) && f.Fifo()
      invariant Good(answers) ==> Good(f.answers) && f.error == 0
      invariant n <= i && f.accepted == AllPut(events, n) && (f.error == 0 ==> n == i)
      invariant forall a :: a in f.answers ==> a in answers
      invariant f.error != 0 ==> f.error < 0 && f.error != -EAGAIN && f.error in answers
    {
      AllPutTurn(events, i);
      ghost var was := f.error == 0;
      PutAnswers(f.Buffered(), if events[i].Put? then events[i].buf else [], f.answers, f.bytesXfer, f.xferLimit);
      match events[i] {
        case Put(buf, before) => var _ := f.PutBuffer(buf, before);
        case Tick => f.RateTick();
      }
      if was && f.accepted == AllPut(events, i + 1) { n := i + 1; }
    }
  }

  lemma GoodIsNoZero(answers: seq<int>)
    ensures Good(answers) ==> NoZero(answers)
  {
  }

  lemma AllPutTurn(events: seq<Event>, i: nat)
    requires i <= |events|
    ensures AllPut(events, 0) == []
    ensures i < |events| ==> AllPut(events, i + 1) == AllPut(events, i) + if events[i].Put? then events[i].buf else []
  {
  }

  /** Without an answer of zero a put keeps the order; with good answers nothing fails. */
  lemma PutAnswers(kept: seq<Byte>, buf: seq<Byte>, answers: seq<int>, xfer: nat, limit: nat)
    ensures var f := Drive(|kept|, answers, false, 0, 0);
            var p := DriveAfter(f, |buf|, answers, xfer, limit);
            (NoZero(answers) ==> KeepsOrder(kept, buf, answers, xfer, limit) && NoZero(answers[f.used..]) &&
                                 NoZero(answers[f.used..][p.used..])) &&
            (Good(answers) ==> !f.stop.Failure? && !p.stop.Failure? && Good(answers[f.used..]) && Good(answers[f.used..][p.used..])) &&
            (f.stop.Failure? ==> f.stop.error in answers && f.stop.error != -EAGAIN) &&
            (p.stop.Failure? ==> p.stop.error in answers && p.stop.error != -EAGAIN) &&
            (forall a :: a in answers[f.used..] ==> a in answers) &&
            (forall a :: a in answers[f.used..][p.used..] ==> a in answers)
  {
    hide Drive, NoZero, Good;
    DriveAnswers(|kept|, answers, false, 0, 0);
    DriveError(|kept|, answers, false, 0, 0);
    var f := Drive(|kept|, answers, false, 0, 0);
    var rest := answers[f.used..];
    DriveAnswers(|buf|, rest, true, xfer, limit);
    DriveError(|buf|, rest, true, xfer, limit);
    assert rest[0..] == rest;
  }

  /** A zero answer to the flush breaks the order: if something is buffered, the backend answers zero
      and then takes all of the next put, the new bytes overtake the buffered ones; the stream is
      out of order exactly when that can be seen in the bytes. */
  lemma ZeroOvertakes(kept: seq<Byte>, buf: seq<Byte>, answers: seq<int>, xfer: nat, limit: nat)
    requires kept != [] && buf != [] && xfer <= limit && |answers| > 1 && answers[0] == 0 && |buf| <= answers[1]
    ensures KeepsOrder(kept, buf, answers, xfer, limit) <==> buf + kept == kept + buf
  {
    var f := Drive(|kept|, answers, false, 0, 0);
    assert f == Outcome(0, 1, Zero);
    DriveTurn(|buf|, answers[1..], true, xfer, limit);
    DriveStops(0, answers[1..][1..], true, xfer + |buf|, limit);
    assert DriveAfter(f, |buf|, answers, xfer, limit) == Outcome(|buf|, 1, Done);
    assert kept[0..] == kept && buf[..|buf|] == buf;
  }

  /** A zero answer to the put itself always does: with nothing buffered, what memory holds before the
      caller's bytes joins the stream, though no error is recorded. */
  lemma ZeroInPut(buf: seq<Byte>, answers: seq<int>, xfer: nat, limit: nat)
    requires buf != [] && xfer <= limit && answers != [] && answers[0] == 0
    ensures !KeepsOrder([], buf, answers, xfer, limit)
    ensures DriveAfter(Drive(0, answers, false, 0, 0), |buf|, answers, xfer, limit) == Outcome(0, 1, Zero)
  {
    assert answers[0..] == answers;
  }
}
