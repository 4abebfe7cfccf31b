/** The input buffer of one session, updated in place: grown by doubling, shifted down after each extraction. */
module SessionBuffer {
  import opened Bytes
  import opened Wire
  import opened Ingest
  import opened Chunking

  /** The frames logged so far and those still to come out of the buffer, with the leftover. */
  ghost function Outlook(frames: seq<seq<Byte>>, buf: seq<Byte>): Parsed {
    Parse(buf).(frames := frames + Parse(buf).frames)
  }

  lemma OutlookUnfolds(frames: seq<seq<Byte>>, buf: seq<Byte>)
    ensures match HeadOf(buf)
            case NeedMore => Outlook(frames, buf) == Parsed(frames, buf, true)
            case Bad => Outlook(frames, buf) == Parsed(frames, [], false)
            case Frame(n) => Outlook(frames, buf) == Outlook(frames + [buf[..n]], buf[n..])
  {
    ParseUnfolds(buf);
  }

  lemma FeedSnoc(writes: seq<seq<Byte>>, w: seq<Byte>)
    ensures var before, after := Feed(writes), Feed(writes + [w]);
            var outlook := Outlook(before.frames, before.rest + w);
            after.frames == outlook.frames && after.rest == outlook.rest
  {
    assert (writes + [w])[..|writes|] == writes;
  }

  class InBuf {
    var inbuf: array<Byte>
    var inLen: nat
    var frames: seq<seq<Byte>>
    var resets: nat

    ghost predicate Valid()
      reads this
    {
      inLen <= inbuf.Length && OnLadder(inbuf.Length)
    }

    ghost function Contents(): seq<Byte>
      requires Valid()
      reads this, inbuf
    {
      inbuf[..inLen]
    }

    constructor ()
      ensures Valid() && Contents() == [] && frames == [] && resets == 0 && fresh(inbuf)
    {
      inbuf, inLen, frames, resets := new Byte[INITIAL_CAP](_ => 0), 0, [], 0;
    }

    /** Replace the buffer by a larger one with the same contents. */
    method Grow(need: nat)
      requires Valid() && inbuf.Length < need <= MAX_FRAME_BYTES
      modifies this`inbuf
      ensures Valid() && fresh(inbuf) && inbuf.Length == NewCap(old(inbuf.Length), need) >= need
      ensures Contents() == old(Contents())
    {
      NewCapClimbs(inbuf.Length, need);
      var newcap := inbuf.Length;
      while newcap < need
        invariant inbuf == old(inbuf) && newcap > 0 && NewCap(newcap, need) == NewCap(inbuf.Length, need)
        decreases need - newcap
      {
        newcap := newcap * 2;
      }
      if newcap > MAX_FRAME_BYTES {
        newcap := MAX_FRAME_BYTES;
      }
      var nb := new Byte[newcap](_ => 0);
      for i := 0 to inLen
        invariant inbuf == old(inbuf) && nb[..i] == inbuf[..i]
      {
        nb[i] := inbuf[i];
      }
      inbuf := nb;
    }

    /** Copy the write after the buffered bytes. */
    method Store(data: seq<Byte>)
      requires Valid() && inLen + |data| <= inbuf.Length
      modifies this`inLen, inbuf
      ensures Valid() && Contents() == old(Contents()) + data
    {
      var at := inLen;
      for i := 0 to |data|
        invariant inLen == at
        invariant forall k | 0 <= k < at :: inbuf[k] == old(inbuf[k])
        invariant forall k | 0 <= k < i :: inbuf[at + k] == data[k]
      {
        inbuf[at + i] := data[i];
      }
      inLen := at + |data|;
    }

    /** memmove: drop the first `n` bytes. */
    method Shift(n: nat)
      requires Valid() && n <= inLen
      modifies this`inLen, inbuf
      ensures Valid() && Contents() == old(Contents())[n..]
    {
      var remain := inLen - n;
      for i := 0 to remain
        invariant inLen == old(inLen)
        invariant forall k | 0 <= k < i :: inbuf[k] == old(inbuf[n + k])
        invariant forall k | i <= k < inbuf.Length :: inbuf[k] == old(inbuf[k])
      {
        inbuf[i] := inbuf[n + i];
      }
      inLen := remain;
    }

    /** One turn of the extract loop: take a whole frame, or stop. */
    method Turn() returns (more: bool)
      requires Valid()
      modifies this`inLen, this`frames, this`resets, inbuf
      ensures Valid()
      ensures more ==> inLen < old(inLen) && resets == old(resets) && |frames| == |old(frames)| + 1
                       && Outlook(frames, Contents()) == old(Outlook(frames, Contents()))
      ensures !more ==> resets <= old(resets) + 1 && inLen <= old(inLen) && frames == old(frames)
                        && old(Outlook(frames, Contents())) == Parsed(frames, Contents(), resets == old(resets))
    {
      var buffered := inbuf[..inLen];
      OutlookUnfolds(frames, buffered);
      var head := HeadOf(buffered);
      if head.Frame? {
        frames := frames + [buffered[..head.n]];
        Shift(head.n);
        return true;
      }
      if head.Bad? {
        inLen := 0;
        resets := resets + 1;
      }
      return false;
    }

    /**
     drawfs_try_process_inbuf without competitors: extract every whole frame, reset on a bad
     header. `refused` is the number of the frame whose dispatch reports backpressure, if it
     gets that far; the call then stops behind that frame, and the rest stays buffered.
     */
    method TryProcess(refused: nat) returns (blocked: bool)
      requires Valid()
      modifies this`inLen, this`frames, this`resets, inbuf
      ensures Valid() && resets <= old(resets) + 1 && |frames| + inLen <= |old(frames)| + old(inLen)
      ensures blocked ==> resets == old(resets) && |frames| == |old(frames)| + refused + 1
                          && Outlook(frames, Contents()) == old(Outlook(frames, Contents()))
      ensures !blocked ==> Parsed(frames, Contents(), resets == old(resets)) == old(Outlook(frames, Contents()))
    {
      var more, n := true, 0;
      while more
        invariant Valid() && resets <= old(resets) + 1 && |frames| + inLen <= |old(frames)| + old(inLen)
        invariant more ==> resets == old(resets) && Outlook(frames, Contents()) == old(Outlook(frames, Contents()))
        invariant more ==> |frames| == |old(frames)| + n
        invariant !more ==> Parsed(frames, Contents(), resets == old(resets)) == old(Outlook(frames, Contents()))
        decreases more, inLen
      {
        more := Turn();
        if more && n == refused {
          return true;
        }
        n := n + 1;
      }
      return false;
    }

    /** The body of drawfs_ingest_bytes: a write that would overflow the frame limit discards the buffer instead. */
    method Accept(data: seq<Byte>, refused: nat) returns (blocked: bool)
      requires Valid() && 0 < |data| <= MAX_FRAME_BYTES
      modifies this, inbuf
      ensures Valid() && inbuf.Length >= old(inbuf.Length)
      ensures inbuf == old(inbuf) || fresh(inbuf)
      ensures old(inLen) + |data| > MAX_FRAME_BYTES ==>
                !blocked && Contents() == [] && frames == old(frames) && resets == old(resets) + 1
      ensures old(inLen) + |data| <= MAX_FRAME_BYTES && !blocked ==>
                Parsed(frames, Contents(), resets == old(resets)) == old(Outlook(frames, Contents() + data))
      ensures blocked ==> resets == old(resets) && refused < old(inLen) + |data| <= MAX_FRAME_BYTES
                          && Outlook(frames, Contents()) == old(Outlook(frames, Contents() + data))
    {
      var need := inLen + |data|;
      if need > MAX_FRAME_BYTES {
        inLen := 0;
        resets := resets + 1;
        return false;
      }
      if need > inbuf.Length {
        Grow(need);
      }
      Store(data);
      blocked := TryProcess(refused);
    }

    /** drawfs_ingest_bytes: an empty write does nothing, one over the frame limit is refused; backpressure loses nothing. */
    method IngestBytes(data: seq<Byte>, refused: nat) returns (tooBig: bool, blocked: bool)
      requires Valid()
      modifies this, inbuf
      ensures Valid() && inbuf.Length >= old(inbuf.Length)
      ensures inbuf == old(inbuf) || fresh(inbuf)
      ensures tooBig == (|data| > MAX_FRAME_BYTES)
      ensures |data| == 0 || tooBig ==> !blocked && Contents() == old(Contents()) && frames == old(frames) && resets == old(resets)
      ensures !tooBig && old(inLen) + |data| > MAX_FRAME_BYTES && |data| > 0 ==>
                !blocked && Contents() == [] && frames == old(frames) && resets == old(resets) + 1
      ensures |data| > 0 && old(inLen) + |data| <= MAX_FRAME_BYTES && !blocked ==>
                Parsed(frames, Contents(), resets == old(resets)) == old(Outlook(frames, Contents() + data))
      ensures blocked ==> resets == old(resets) && refused < MAX_FRAME_BYTES
                          && Outlook(frames, Contents()) == old(Outlook(frames, Contents() + data))
    {
      if |data| == 0 { return false, false; }
      if |data| > MAX_FRAME_BYTES { return true, false; }
      tooBig := false;
      blocked := Accept(data, refused);
    }
  }

  method SendOne(b: InBuf, ghost sent: seq<seq<Byte>>, w: seq<Byte>)
    requires b.Valid() && b.frames == Feed(sent).frames && b.Contents() == Feed(sent).rest
    requires 0 < |w| <= MAX_FRAME_BYTES && |Feed(sent).rest| + |w| <= MAX_FRAME_BYTES
    modifies b, b.inbuf
    ensures b.Valid() && (b.inbuf == old(b.inbuf) || fresh(b.inbuf))
    ensures b.frames == Feed(sent + [w]).frames && b.Contents() == Feed(sent + [w]).rest
  {
    FeedSnoc(sent, w);
    var _, _ := b.IngestBytes(w, MAX_FRAME_BYTES);
  }

  /** No write overflows the buffer on top of what the ones before it left over. */
  ghost predicate Paced(writes: seq<seq<Byte>>) {
    forall i | 0 <= i < |writes| :: 0 < |writes[i]| && |Feed(writes[..i]).rest| + |writes[i]| <= MAX_FRAME_BYTES
  }

  method SendEach(b: InBuf, writes: seq<seq<Byte>>)
    requires b.Valid() && b.Contents() == [] && b.frames == [] && Paced(writes)
    modifies b, b.inbuf
    ensures b.Valid() && b.frames == Feed(writes).frames && b.Contents() == Feed(writes).rest
  {
    for i := 0 to |writes|
      invariant b.Valid() && (b.inbuf == old(b.inbuf) || fresh(b.inbuf))
      invariant b.frames == Feed(writes[..i]).frames && b.Contents() == Feed(writes[..i]).rest
    {
      assert writes[..i + 1] == writes[..i] + [writes[i]];
      SendOne(b, writes[..i], writes[i]);
    }
    assert writes[..|writes|] == writes;
  }

  /** A client that writes a stream in pieces small enough gets the frames of one-shot parsing. */
  method SendAll(b: InBuf, writes: seq<seq<Byte>>)
    requires b.Valid() && b.Contents() == [] && b.frames == []
    requires Paced(writes) && Parse(Flatten(writes)).clean
    modifies b, b.inbuf
    ensures b.Valid()
    ensures b.frames == Parse(Flatten(writes)).frames && b.Contents() == Parse(Flatten(writes)).rest
  {
    ChunkingDoesNotMatter(writes);
    SendEach(b, writes);
  }
}
