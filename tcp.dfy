/** The TCP transport: reassembly of STUN messages and ChannelData frames
    from the byte stream of a connection (section 11.5 of RFC 5766), the
    reaper that closes idle connections when a new one arrives, and the
    alternate-socket selector. */
module Tcp {
  import opened Net
  import opened Listeners
  import opened Dispatch

  const TCP_MAX_LENGTH: nat := 2048
  const STUN_HEADER_SIZE: nat := 20
  /** Age in seconds after which an idle connection is closed. */
  const IDLE_AGE: nat := 60

  /** A frame length rounded up to the next multiple of 4, the padding a
      frame takes on the stream.  Counted down in steps of 4 so that no
      remainder enters the proofs about scans. */
  function Align4(n: nat): (r: nat)
    ensures n <= r < n + 4
  {
    if n == 0 then 0 else if n <= 4 then 4 else 4 + Align4(n - 4)
  }

  /** The aligned length is a multiple of 4. */
  lemma {:induction false} Align4Bounds(n: nat)
    ensures Align4(n) % 4 == 0
  {
    if n > 4 {
      Align4Bounds(n - 4);
    }
  }

  /** A multiple of 4 is its own aligned length. */
  lemma {:induction false} Align4Exact(n: nat)
    requires n % 4 == 0
    ensures Align4(n) == n
  {
    if n > 4 {
      Align4Exact(n - 4);
    }
  }

  /** One more byte of a length that is not yet a multiple of 4 does not
      change its aligned length. */
  lemma {:induction false} Align4Step(n: nat)
    requires n % 4 != 0
    ensures Align4(n + 1) == Align4(n)
  {
    if n > 4 {
      Align4Step(n - 4);
    }
  }

  /** What a 4-byte frame header announces: a whole frame of `size` bytes
      (header included), or one of the two framing errors. */
  datatype Header = Whole(size: nat) | BadLength | BadType

  /** The frame a header with type field `typ` and length field `len`
      announces: a type below 0x4000 is a STUN message whose length field
      leaves out the 20-byte STUN header, a type in 0x4000..0x7FFF a
      ChannelData message whose length field leaves out the 4-byte channel
      header; a length above 2048 or any other type is an error. */
  function HeaderOf(typ: u16, len: u16): Header
  {
    if len > TCP_MAX_LENGTH then BadLength
    else if typ < 0x4000 then Whole(len + STUN_HEADER_SIZE)
    else if typ < 0x8000 then Whole(len + 4)
    else BadType
  }

  /** A whole frame is at least a header and at most 2068 bytes long;
      both errors are told apart by the fields alone. */
  lemma HeaderOfBounds(typ: u16, len: u16)
    ensures HeaderOf(typ, len) == BadLength <==> len > TCP_MAX_LENGTH
    ensures HeaderOf(typ, len) == BadType <==> len <= TCP_MAX_LENGTH && typ >= 0x8000
    ensures HeaderOf(typ, len).Whole? ==> 4 <= HeaderOf(typ, len).size <= TCP_MAX_LENGTH + STUN_HEADER_SIZE
  {
  }

  /** Reads a header from its four bytes. */
  type Decoder = (byte, byte, byte, byte) -> Header

  /** `mbuf_read_u16` twice, big-endian: the type field, then the length
      field. */
  function Decode(t0: byte, t1: byte, l0: byte, l1: byte): Header
  {
    HeaderOf(t0 * 0x100 + t1, l0 * 0x100 + l1)
  }

  /** A decoder never announces a frame shorter than its own header (so
      every whole frame moves the read position forward). */
  ghost predicate Sane(dec: Decoder)
  {
    forall t0, t1, l0, l1 :: dec(t0, t1, l0, l1).Whole? ==> dec(t0, t1, l0, l1).size >= 4
  }

  lemma DecodeSane()
    ensures Sane(Decode)
  {
    forall t0: byte, t1: byte, l0: byte, l1: byte
      ensures Decode(t0, t1, l0, l1).Whole? ==> Decode(t0, t1, l0, l1).size >= 4
    {
      HeaderOfBounds(t0 * 0x100 + t1, l0 * 0x100 + l1);
    }
  }

  /** The header at `b[i..i+4]`. */
  function HeaderAt(dec: Decoder, b: seq<byte>, i: nat): Header
    requires i + 4 <= |b|
  {
    dec(b[i], b[i + 1], b[i + 2], b[i + 3])
  }

  /** The header of a frame depends only on its first four bytes. */
  lemma HeaderOfSlice(dec: Decoder, b: seq<byte>, i: nat, n: nat)
    requires i + 4 <= i + n <= |b|
    ensures HeaderAt(dec, b[i..i + n], 0) == HeaderAt(dec, b, i)
  {
    var f := b[i..i + n];
    assert f[0] == b[i] && f[1] == b[i + 1] && f[2] == b[i + 2] && f[3] == b[i + 3];
  }

  /** A frame as delivered to the dispatcher: its header announces exactly
      its own size. */
  predicate WellFramed(dec: Decoder, f: seq<byte>)
  {
    |f| >= 4 && HeaderAt(dec, f, 0) == Whole(|f|)
  }

  /** Bytes from offset `n` on hold no whole frame yet. */
  predicate Incomplete(dec: Decoder, b: seq<byte>, n: nat)
  {
    n + 4 > |b| || (HeaderAt(dec, b, n).Whole? && n + HeaderAt(dec, b, n).size > |b|)
  }

  /** Stream bytes a run of frames takes, padding included. */
  function Span(fs: seq<seq<byte>>): nat
  {
    if |fs| == 0 then 0 else Align4(|fs[0]|) + Span(fs[1..])
  }

  /** The frames lie one after another in `b` from offset `i`, each
      starting on the 4-byte boundary after the previous one. */
  predicate Laid(b: seq<byte>, i: nat, fs: seq<seq<byte>>)
    decreases |fs|
  {
    |fs| == 0 || (i + |fs[0]| <= |b| && fs[0] == b[i..i + |fs[0]|] && Laid(b, i + Align4(|fs[0]|), fs[1..]))
  }

  /** The frames found from offset `i`, the offset where scanning stopped,
      and whether it stopped on a framing error. */
  datatype Parse = Parse(frames: seq<seq<byte>>, next: nat, bad: bool)

  /** A whole frame `f` found in front of the scan `r`. */
  function Cons(f: seq<byte>, r: Parse): Parse
  {
    Parse([f] + r.frames, r.next, r.bad)
  }

  /** The scan `r` of a prefix continued by the scan `later` from where `r`
      stopped, unless `r` stopped on an error. */
  function Join(r: Parse, later: Parse): Parse
  {
    if r.bad then r else Parse(r.frames + later.frames, later.next, later.bad)
  }

  /** Every whole frame from offset `i` on, in order, up to the first
      incomplete frame or framing error: the `for (;;)` loop of
      `tcp_recv`. */
  function Frames(dec: Decoder, b: seq<byte>, i: nat): Parse
    requires Sane(dec)
    decreases if i <= |b| then |b| - i + 1 else 0
  {
    if i + 4 > |b| then Parse([], i, false)
    else match HeaderAt(dec, b, i)
      case Whole(n) =>
        if i + n > |b| then Parse([], i, false)
        else Cons(b[i..i + n], Frames(dec, b, i + Align4(n)))
      case _ => Parse([], i, true)
  }

  /** The scan stops at an incomplete frame, or with an error at a header
      that announces no frame. */
  lemma FramesStop(dec: Decoder, b: seq<byte>, i: nat)
    requires Sane(dec)
    requires Incomplete(dec, b, i) || !HeaderAt(dec, b, i).Whole?
    ensures Frames(dec, b, i) == Parse([], i, !Incomplete(dec, b, i))
  {
  }

  /** One step of the scan over a whole frame. */
  lemma FramesWhole(dec: Decoder, b: seq<byte>, i: nat)
    requires Sane(dec) && !Incomplete(dec, b, i) && HeaderAt(dec, b, i).Whole?
    ensures Frames(dec, b, i) == Cons(b[i..i + HeaderAt(dec, b, i).size], Frames(dec, b, i + Align4(HeaderAt(dec, b, i).size)))
  {
  }

  /** What a scan `r` from offset `i` must be: well-framed frames lying
      back to back (each on the 4-byte boundary after the previous one)
      from `i`, the cursor advanced by exactly their padded sizes, and a
      stop only at an incomplete frame, at the end of the bytes, or at a
      framing error. */
  predicate Sound(dec: Decoder, b: seq<byte>, i: nat, r: Parse)
  {
    && r.next == i + Span(r.frames)
    && Laid(b, i, r.frames)
    && (forall f :: f in r.frames ==> WellFramed(dec, f))
    && (r.bad ==> r.next + 4 <= |b| && !HeaderAt(dec, b, r.next).Whole?)
    && (!r.bad && r.next <= |b| ==> Incomplete(dec, b, r.next))
  }

  /** The scan delivers what `Sound` describes. */
  lemma {:induction false} FramesSound(dec: Decoder, b: seq<byte>, i: nat)
    requires Sane(dec)
    ensures Sound(dec, b, i, Frames(dec, b, i))
    decreases if i <= |b| then |b| - i + 1 else 0
  {
    if i + 4 <= |b| && HeaderAt(dec, b, i).Whole? && i + HeaderAt(dec, b, i).size <= |b| {
      var n := HeaderAt(dec, b, i).size;
      var j := i + Align4(n);
      FramesSound(dec, b, j);
      SoundWhole(dec, b, i, n, j);
    } else {
      SoundStop(dec, b, i);
    }
  }

  lemma SoundStop(dec: Decoder, b: seq<byte>, i: nat)
    requires Sane(dec)
    requires Incomplete(dec, b, i) || !HeaderAt(dec, b, i).Whole?
    ensures Sound(dec, b, i, Frames(dec, b, i))
  {
    FramesStop(dec, b, i);
  }

  lemma SoundWhole(dec: Decoder, b: seq<byte>, i: nat, n: nat, j: nat)
    requires Sane(dec) && i + 4 <= |b| && HeaderAt(dec, b, i) == Whole(n) && i + n <= |b| && j == i + Align4(n)
    requires Sound(dec, b, j, Frames(dec, b, j))
    ensures Sound(dec, b, i, Frames(dec, b, i))
  {
    FramesWholeTo(dec, b, i, n, j);
    SoundCons(dec, b, i, n, Frames(dec, b, j));
  }

  /** A whole frame in front of a sound scan gives a sound scan. */
  lemma SoundCons(dec: Decoder, b: seq<byte>, i: nat, n: nat, rest: Parse)
    requires Sane(dec) && i + 4 <= |b| && HeaderAt(dec, b, i) == Whole(n) && i + n <= |b|
    requires Sound(dec, b, i + Align4(n), rest)
    ensures Sound(dec, b, i, Cons(b[i..i + n], rest))
  {
    HeaderOfSlice(dec, b, i, n);
    var fs := [b[i..i + n]] + rest.frames;
    assert fs[0] == b[i..i + n] && fs[1..] == rest.frames;
    forall f | f in fs
      ensures WellFramed(dec, f)
    {
      if f != fs[0] {
        assert f in rest.frames;
      }
    }
  }

  /** Appending bytes does not change the frames already complete: the
      longer stream yields them and then whatever the new bytes complete. */
  lemma {:induction false} FramesExtend(dec: Decoder, b: seq<byte>, t: seq<byte>, i: nat)
    requires Sane(dec)
    ensures Frames(dec, b + t, i) == Join(Frames(dec, b, i), Frames(dec, b + t, Frames(dec, b, i).next))
    decreases if i <= |b| then |b| - i + 1 else 0
  {
    if Incomplete(dec, b, i) {
      ExtendIncomplete(dec, b, t, i);
    } else if HeaderAt(dec, b, i).Whole? {
      var n := HeaderAt(dec, b, i).size;
      var j := i + Align4(n);
      FramesExtend(dec, b, t, j);
      ExtendWhole(dec, b, t, i, n, j);
    } else {
      assert HeaderAt(dec, b + t, i) == HeaderAt(dec, b, i);
    }
  }

  lemma ExtendIncomplete(dec: Decoder, b: seq<byte>, t: seq<byte>, i: nat)
    requires Sane(dec) && Incomplete(dec, b, i)
    ensures Frames(dec, b + t, i) == Join(Frames(dec, b, i), Frames(dec, b + t, Frames(dec, b, i).next))
  {
    assert Frames(dec, b, i) == Parse([], i, false);
    assert [] + Frames(dec, b + t, i).frames == Frames(dec, b + t, i).frames;
  }

  /** The first `n >= 4` bytes from `i` are the same in `b` and `b + t`. */
  lemma SamePrefix(dec: Decoder, b: seq<byte>, t: seq<byte>, i: nat, n: nat)
    requires 4 <= n && i + n <= |b|
    ensures (b + t)[i..i + n] == b[i..i + n]
    ensures HeaderAt(dec, b + t, i) == HeaderAt(dec, b, i)
  {
  }

  lemma ExtendWhole(dec: Decoder, b: seq<byte>, t: seq<byte>, i: nat, n: nat, j: nat)
    requires Sane(dec) && i + 4 <= |b| && HeaderAt(dec, b, i) == Whole(n) && i + n <= |b| && j == i + Align4(n)
    requires Frames(dec, b + t, j) == Join(Frames(dec, b, j), Frames(dec, b + t, Frames(dec, b, j).next))
    ensures Frames(dec, b + t, i) == Join(Frames(dec, b, i), Frames(dec, b + t, Frames(dec, b, i).next))
  {
    SamePrefix(dec, b, t, i, n);
    FramesWholeTo(dec, b, i, n, j);
    FramesWholeTo(dec, b + t, i, n, j);
    var whole, rest := Frames(dec, b, i), Frames(dec, b, j);
    FramesAt(dec, b + t, rest.next, whole.next);
    ExtendJoined(b[i..i + n], whole, Frames(dec, b + t, i), rest, Frames(dec, b + t, j), Frames(dec, b + t, whole.next));
  }

  /** The scans of `b` and `b + t` agree on the first frame, and the rest
      of the longer one continues the rest of the shorter one. */
  lemma ExtendJoined(f: seq<byte>, whole: Parse, wholeT: Parse, rest: Parse, restT: Parse, later: Parse)
    requires whole == Cons(f, rest) && wholeT == Cons(f, restT) && restT == Join(rest, later)
    ensures wholeT == Join(whole, later)
  {
    ConsJoin(f, rest, later);
  }

  /** Prepending a frame commutes with appending the frames found later. */
  lemma ConsJoin(f: seq<byte>, r: Parse, later: Parse)
    ensures Cons(f, Join(r, later)) == Join(Cons(f, r), later)
  {
    assert [f] + (r.frames + later.frames) == ([f] + r.frames) + later.frames;
  }

  /** A frame delivered by the loop moves from the scan still to come to
      the frames already delivered. */
  lemma JoinCons(done: seq<seq<byte>>, p: nat, np: nat, f: seq<byte>, rest: Parse)
    ensures Join(Parse(done, p, false), Cons(f, rest)) == Join(Parse(done + [f], np, false), rest)
  {
    assert done + ([f] + rest.frames) == (done + [f]) + rest.frames;
  }

  /** A stream whose scan is clean has a clean prefix. */
  lemma CleanPrefix(dec: Decoder, b: seq<byte>, t: seq<byte>)
    requires Sane(dec) && !Frames(dec, b + t, 0).bad
    ensures !Frames(dec, b, 0).bad
  {
    FramesExtend(dec, b, t, 0);
  }

  /** A scan found at offset `o` of a longer stream. */
  function Shifted(o: nat, r: Parse): Parse
  {
    Parse(r.frames, o + r.next, r.bad)
  }

  /** `b` is the tail of `s` from offset `o`. */
  predicate SuffixAt(s: seq<byte>, o: nat, b: seq<byte>)
  {
    o + |b| == |s| && forall k :: 0 <= k < |b| ==> b[k] == s[o + k]
  }

  lemma SuffixOf(s: seq<byte>, o: nat, b: seq<byte>)
    requires o <= |s| && s[o..] == b
    ensures SuffixAt(s, o, b)
  {
    forall k | 0 <= k < |b| ensures b[k] == s[o + k] {
      assert s[o..][k] == s[o + k];
    }
  }

  /** `FramesShift` for a suffix given as a slice. */
  lemma ShiftTail(dec: Decoder, s: seq<byte>, o: nat, b: seq<byte>, i: nat)
    requires Sane(dec) && o <= |s| && s[o..] == b
    ensures Frames(dec, s, o + i) == Shifted(o, Frames(dec, b, i))
  {
    SuffixOf(s, o, b);
    FramesShift(dec, s, o, b, i);
  }

  /** Scanning a suffix of a stream finds the same frames at offsets
      shifted by the length of the dropped prefix. */
  lemma {:induction false} FramesShift(dec: Decoder, s: seq<byte>, o: nat, b: seq<byte>, i: nat)
    requires Sane(dec) && SuffixAt(s, o, b)
    ensures Frames(dec, s, o + i) == Shifted(o, Frames(dec, b, i))
    decreases if i <= |b| then |b| - i + 1 else 0
  {
    if i + 4 <= |b| && HeaderAt(dec, b, i).Whole? && i + HeaderAt(dec, b, i).size <= |b| {
      var n := HeaderAt(dec, b, i).size;
      var j := i + Align4(n);
      FramesShift(dec, s, o, b, j);
      ShiftSlice(dec, s, o, b, i, n);
      ShiftWhole(dec, s, o, b, i, n, j);
    } else {
      ShiftStop(dec, s, o, b, i);
    }
  }

  /** Where the scan of the suffix stops, the scan of the stream stops. */
  lemma ShiftStop(dec: Decoder, s: seq<byte>, o: nat, b: seq<byte>, i: nat)
    requires Sane(dec) && SuffixAt(s, o, b)
    requires Incomplete(dec, b, i) || !HeaderAt(dec, b, i).Whole?
    ensures Frames(dec, s, o + i) == Shifted(o, Frames(dec, b, i))
  {
    if i + 4 <= |b| {
      ShiftSlice(dec, s, o, b, i, 4);
    }
    FramesStop(dec, b, i);
    FramesStop(dec, s, o + i);
  }

  /** One whole frame of the suffix is one whole frame of the stream. */
  lemma ShiftWhole(dec: Decoder, s: seq<byte>, o: nat, b: seq<byte>, i: nat, n: nat, j: nat)
    requires Sane(dec) && o + |b| == |s| && i + 4 <= |b| && i + n <= |b| && j == i + Align4(n)
    requires HeaderAt(dec, b, i) == Whole(n) && HeaderAt(dec, s, o + i) == Whole(n)
    requires b[i..i + n] == s[o + i..o + i + n]
    requires Frames(dec, s, o + j) == Shifted(o, Frames(dec, b, j))
    ensures Frames(dec, s, o + i) == Shifted(o, Frames(dec, b, i))
  {
    FramesWholeTo(dec, b, i, n, j);
    FramesWholeTo(dec, s, o + i, n, o + j);
    ShiftCons(o, b[i..i + n], Frames(dec, b, j));
    ShiftJoined(o, b[i..i + n], Frames(dec, b, i), Frames(dec, s, o + i), Frames(dec, b, j), Frames(dec, s, o + j));
  }

  /** The shifted scans agree on the first frame and on the rest. */
  lemma ShiftJoined(o: nat, f: seq<byte>, whole: Parse, wholeS: Parse, rest: Parse, restS: Parse)
    requires whole == Cons(f, rest) && wholeS == Cons(f, restS) && restS == Shifted(o, rest)
    requires Shifted(o, Cons(f, rest)) == Cons(f, Shifted(o, rest))
    ensures wholeS == Shifted(o, whole)
  {
  }

  /** `FramesWholeAt` with the offset where the scan goes on named. */
  lemma FramesWholeTo(dec: Decoder, b: seq<byte>, i: nat, n: nat, j: nat)
    requires Sane(dec) && i + 4 <= |b| && HeaderAt(dec, b, i) == Whole(n) && i + n <= |b|
    requires j == i + Align4(n)
    ensures Frames(dec, b, i) == Cons(b[i..i + n], Frames(dec, b, j))
  {
    FramesWholeAt(dec, b, i, n);
    FramesAt(dec, b, i + Align4(n), j);
  }

  lemma FramesAt(dec: Decoder, b: seq<byte>, x: nat, y: nat)
    requires Sane(dec) && x == y
    ensures Frames(dec, b, x) == Frames(dec, b, y)
  {
  }

  /** `FramesWhole` for a header known to announce `n` bytes. */
  lemma FramesWholeAt(dec: Decoder, b: seq<byte>, i: nat, n: nat)
    requires Sane(dec) && i + 4 <= |b| && HeaderAt(dec, b, i) == Whole(n) && i + n <= |b|
    ensures Frames(dec, b, i) == Cons(b[i..i + n], Frames(dec, b, i + Align4(n)))
  {
  }

  /** Shifting commutes with putting a frame in front. */
  lemma ShiftCons(o: nat, f: seq<byte>, r: Parse)
    ensures Shifted(o, Cons(f, r)) == Cons(f, Shifted(o, r))
  {
  }

  lemma ShiftSlice(dec: Decoder, s: seq<byte>, o: nat, b: seq<byte>, i: nat, n: nat)
    requires SuffixAt(s, o, b) && i + n <= |b| && 4 <= n
    ensures b[i..i + n] == s[o + i..o + i + n]
    ensures HeaderAt(dec, b, i) == HeaderAt(dec, s, o + i)
  {
    assert b[i] == s[o + i] && b[i + 1] == s[o + i + 1] && b[i + 2] == s[o + i + 2] && b[i + 3] == s[o + i + 3];
  }

  /** The receive state of a connection: the buffered bytes (`conn->mb`)
      with the read position, and, in the corrected reassembly only, the
      number of padding bytes of the last frame still to be dropped. */
  datatype Rx = Rx(mb: Option<seq<byte>>, pos: nat, skip: nat)

  predicate RxValid(rx: Rx)
  {
    (rx.mb.Some? ==> rx.pos <= |rx.mb.value| && rx.skip == 0)
    && (rx.mb.None? ==> rx.pos == 0)
  }

  const NoBuffer: Rx := Rx(None, 0, 0)

  /** The bytes scanned after a chunk arrives: the unread buffer followed by
      the chunk, less the padding still owed. */
  function Buffered(rx: Rx, chunk: seq<byte>): seq<byte>
    requires rx.skip <= |chunk|
  {
    if rx.mb.Some? then rx.mb.value + chunk[rx.skip..] else chunk[rx.skip..]
  }

  /** What one call of `tcp_recv` delivered and left behind. */
  datatype Received = Received(frames: seq<seq<byte>>, rx: Rx, bad: bool)

  /** One call of `tcp_recv`.  The new bytes go after the unread ones; the
      whole frames are delivered; the buffer is released once a frame has
      moved the cursor to or past its end, and dropped on a framing error.
      With `keepPadding` false this is the released code, which forgets the
      padding a frame still owes when the cursor passes the end; with it
      true, those padding bytes are dropped from the next chunk instead. */
  function Receive(dec: Decoder, rx: Rx, chunk: seq<byte>, keepPadding: bool): (r: Received)
    requires Sane(dec) && RxValid(rx)
    ensures RxValid(r.rx)
  {
    if rx.skip > 0 && rx.skip >= |chunk| then
      Received([], Rx(None, 0, rx.skip - |chunk|), false)
    else
      var b := Buffered(rx, chunk);
      var r := Frames(dec, b, rx.pos);
      FramesSound(dec, b, rx.pos);
      if r.bad then Received(r.frames, NoBuffer, true)
      else if |r.frames| > 0 && r.next >= |b| then
        Received(r.frames, Rx(None, 0, if keepPadding then r.next - |b| else 0), false)
      else
        Received(r.frames, Rx(Some(b), r.next, 0), false)
  }

  /** What a call leaves behind is again a valid receive state, forgets
      the buffer after a framing error, and delivers only well-framed
      frames; the released code never owes padding. */
  lemma ReceiveValid(dec: Decoder, rx: Rx, chunk: seq<byte>, keepPadding: bool)
    requires Sane(dec) && RxValid(rx)
    ensures var r := Receive(dec, rx, chunk, keepPadding);
            && (!keepPadding && rx.skip == 0 ==> r.rx.skip == 0)
            && (r.bad ==> r.rx == NoBuffer)
            && (forall f :: f in r.frames ==> WellFramed(dec, f))
  {
    if !(rx.skip > 0 && rx.skip >= |chunk|) {
      FramesSound(dec, Buffered(rx, chunk), rx.pos);
    }
  }

  /** `rx` is the receive state after the stream `s`: scanning `s` as a
      whole gave no framing error, and the buffered bytes are the tail of
      `s` from the offset where that scan stopped (or, with no buffer, the
      scan stopped `skip` bytes past the end of `s`). */
  ghost predicate Tracks(dec: Decoder, s: seq<byte>, rx: Rx)
    requires Sane(dec)
  {
    var r := Frames(dec, s, 0);
    && !r.bad
    && (rx.mb.None? ==> r.next == |s| + rx.skip)
    && (rx.mb.Some? ==> |rx.mb.value| <= |s|)
    && (rx.mb.Some? ==> s[|s| - |rx.mb.value|..] == rx.mb.value)
    && (rx.mb.Some? ==> r.next == |s| - |rx.mb.value| + rx.pos)
  }

  /** The stream offset of the first byte of `Buffered(rx, chunk)`. */
  ghost function Origin(s: seq<byte>, rx: Rx): int
  {
    if rx.mb.Some? then |s| - |rx.mb.value| else |s| + rx.skip
  }

  /** Chunking independence of the corrected reassembly: whatever the
      chunk boundaries, a connection delivers exactly the frames that
      scanning the whole stream at once finds, in the same order, and
      reports a framing error exactly when that scan meets one. */
  lemma ReceiveTracks(dec: Decoder, s: seq<byte>, rx: Rx, chunk: seq<byte>)
    requires Sane(dec) && RxValid(rx) && Tracks(dec, s, rx)
    ensures var r := Receive(dec, rx, chunk, true);
            && Frames(dec, s + chunk, 0).frames == Frames(dec, s, 0).frames + r.frames
            && Frames(dec, s + chunk, 0).bad == r.bad
            && (!r.bad ==> Tracks(dec, s + chunk, r.rx))
  {
    FramesExtend(dec, s, chunk, 0);
    if rx.skip > 0 && rx.skip >= |chunk| {
      TracksSkipped(dec, s, rx, chunk);
    } else {
      var o := Origin(s, rx);
      var b := Buffered(rx, chunk);
      ScanShifted(dec, s, rx, chunk, Frames(dec, s, 0).next, o, b);
      TracksScanned(dec, s + chunk, o, b, Frames(dec, s, 0), Frames(dec, b, rx.pos));
    }
  }

  /** A chunk that only carries owed padding delivers nothing. */
  lemma TracksSkipped(dec: Decoder, s: seq<byte>, rx: Rx, chunk: seq<byte>)
    requires Sane(dec) && RxValid(rx) && Tracks(dec, s, rx)
    requires rx.skip > 0 && rx.skip >= |chunk|
    requires Frames(dec, s + chunk, 0) == Join(Frames(dec, s, 0), Frames(dec, s + chunk, Frames(dec, s, 0).next))
    ensures Frames(dec, s + chunk, 0) == Parse(Frames(dec, s, 0).frames, |s| + rx.skip, false)
    ensures Tracks(dec, s + chunk, Rx(None, 0, rx.skip - |chunk|))
  {
    var n := Frames(dec, s, 0).next;
    FramesStop(dec, s + chunk, n);
    assert Frames(dec, s, 0).frames + [] == Frames(dec, s, 0).frames;
  }

  /** The scan of the whole stream from where it stopped before the chunk
      (offset `n`) is the scan of the buffered bytes, shifted by their
      stream offset. */
  lemma ScanShifted(dec: Decoder, s: seq<byte>, rx: Rx, chunk: seq<byte>, n: nat, o: int, b: seq<byte>)
    requires Sane(dec) && RxValid(rx) && !(rx.skip > 0 && rx.skip >= |chunk|)
    requires rx.mb.Some? ==> |rx.mb.value| <= |s| && s[|s| - |rx.mb.value|..] == rx.mb.value
    requires o == Origin(s, rx) && b == Buffered(rx, chunk) && n == o + rx.pos
    ensures 0 <= o && o + |b| == |s + chunk| && (s + chunk)[o..] == b
    ensures Frames(dec, s + chunk, n) == Shifted(o, Frames(dec, b, rx.pos))
  {
    BufferedTail(s, rx, chunk, o, b);
    ShiftTail(dec, s + chunk, o, b, rx.pos);
  }

  /** The buffered bytes are the tail of the stream from `Origin`. */
  lemma BufferedTail(s: seq<byte>, rx: Rx, chunk: seq<byte>, o: int, b: seq<byte>)
    requires RxValid(rx) && !(rx.skip > 0 && rx.skip >= |chunk|)
    requires rx.mb.Some? ==> |rx.mb.value| <= |s| && s[|s| - |rx.mb.value|..] == rx.mb.value
    requires o == Origin(s, rx) && b == Buffered(rx, chunk)
    ensures 0 <= o && o + |b| == |s + chunk|
    ensures (s + chunk)[o..] == b
  {
    if rx.mb.Some? {
      assert chunk[rx.skip..] == chunk;
      assert (s + chunk)[o..] == s[o..] + chunk;
    } else {
      assert (s + chunk)[o..] == chunk[rx.skip..];
    }
  }

  lemma TracksScanned(dec: Decoder, sc: seq<byte>, o: nat, b: seq<byte>, before: Parse, r: Parse)
    requires Sane(dec) && !before.bad
    requires o + |b| == |sc| && sc[o..] == b
    requires Frames(dec, sc, 0) == Join(before, Shifted(o, r))
    ensures Frames(dec, sc, 0).frames == before.frames + r.frames
    ensures Frames(dec, sc, 0).bad == r.bad
    ensures !r.bad && |r.frames| > 0 && r.next >= |b| ==> Tracks(dec, sc, Rx(None, 0, r.next - |b|))
    ensures !r.bad && !(|r.frames| > 0 && r.next >= |b|) ==> Tracks(dec, sc, Rx(Some(b), r.next, 0))
  {
    assert sc[|sc| - |b|..] == b;
  }

  /** The frames a sequence of chunks delivers, one `tcp_recv` call per
      chunk. */
  function Feed(dec: Decoder, rx: Rx, chunks: seq<seq<byte>>, keepPadding: bool): Received
    requires Sane(dec) && RxValid(rx)
    decreases |chunks|
  {
    if |chunks| == 0 then Received([], rx, false)
    else
      var r1 := Receive(dec, rx, chunks[0], keepPadding);
      var r2 := Feed(dec, r1.rx, chunks[1..], keepPadding);
      Received(r1.frames + r2.frames, r2.rx, r1.bad || r2.bad)
  }

  function Concat(chunks: seq<seq<byte>>): seq<byte>
  {
    if |chunks| == 0 then [] else chunks[0] + Concat(chunks[1..])
  }

  /** Over a stream with no framing error, the corrected connection
      delivers the frames of the whole stream however it is cut. */
  lemma {:induction false} FeedDeliversStream(dec: Decoder, s: seq<byte>, rx: Rx, chunks: seq<seq<byte>>)
    requires Sane(dec) && RxValid(rx) && Tracks(dec, s, rx)
    requires !Frames(dec, s + Concat(chunks), 0).bad
    ensures Frames(dec, s + Concat(chunks), 0).frames == Frames(dec, s, 0).frames + Feed(dec, rx, chunks, true).frames
    decreases |chunks|
  {
    if |chunks| == 0 {
      assert s + Concat(chunks) == s;
      assert Frames(dec, s, 0).frames + [] == Frames(dec, s, 0).frames;
    } else {
      var c := chunks[0];
      var sc := s + c;
      ConcatCons(s, chunks);
      ReceiveTracks(dec, s, rx, c);
      var r1 := Receive(dec, rx, c, true);
      CleanPrefix(dec, sc, Concat(chunks[1..]));
      FeedDeliversStream(dec, sc, r1.rx, chunks[1..]);
      FramesAssoc(Frames(dec, s, 0).frames, r1.frames, Feed(dec, r1.rx, chunks[1..], true).frames);
    }
  }

  lemma ConcatCons(s: seq<byte>, chunks: seq<seq<byte>>)
    requires |chunks| > 0
    ensures s + Concat(chunks) == (s + chunks[0]) + Concat(chunks[1..])
  {
  }

  lemma FramesAssoc(a: seq<seq<byte>>, b: seq<seq<byte>>, c: seq<seq<byte>>)
    ensures a + (b + c) == (a + b) + c
  {
  }

  /** The stream of the counterexample below: a ChannelData frame for
      channel 0x4000 with one data byte and three padding bytes, then an
      empty frame for the same channel. */
  const Split1: seq<byte> := [0x40, 0x00, 0x00, 0x01, 0xAA]
  const Split2: seq<byte> := [0x00, 0x00, 0x00, 0x40, 0x00, 0x00, 0x00]
  const Frame2: seq<byte> := [0x40, 0x00, 0x00, 0x00]

  lemma OneSegment()
    ensures Receive(Decode, NoBuffer, Split1 + Split2, false).frames == [Split1, Frame2]
  {
    DecodeSane();
    var s := Split1 + Split2;
    assert HeaderAt(Decode, s, 0) == Whole(5);
    assert HeaderAt(Decode, s, 8) == Whole(4);
    assert s[8..12] == Frame2 && s[0..5] == Split1;
    FramesStop(Decode, s, 12);
    FramesWhole(Decode, s, 8);
    FramesWhole(Decode, s, 0);
    assert Buffered(NoBuffer, s) == s;
  }

  lemma FirstSegment(keepPadding: bool)
    ensures Receive(Decode, NoBuffer, Split1, keepPadding)
         == Received([Split1], Rx(None, 0, if keepPadding then 3 else 0), false)
  {
    DecodeSane();
    assert HeaderAt(Decode, Split1, 0) == Whole(5);
    assert Split1[0..5] == Split1;
    FramesStop(Decode, Split1, 8);
    FramesWhole(Decode, Split1, 0);
    assert Buffered(NoBuffer, Split1) == Split1;
  }

  lemma SecondSegmentAsWritten()
    ensures Receive(Decode, NoBuffer, Split2, false).frames == []
  {
    DecodeSane();
    assert Buffered(NoBuffer, Split2) == Split2;
    assert HeaderAt(Decode, Split2, 0) == Whole(84);
    FramesStop(Decode, Split2, 0);
  }

  lemma SecondSegmentCorrected()
    ensures Receive(Decode, Rx(None, 0, 3), Split2, true).frames == [Frame2]
  {
    DecodeSane();
    assert Buffered(Rx(None, 0, 3), Split2) == Frame2;
    assert HeaderAt(Decode, Frame2, 0) == Whole(4);
    assert Frame2[0..4] == Frame2;
    FramesStop(Decode, Frame2, 4);
    FramesWhole(Decode, Frame2, 0);
  }

  /** The released reassembly loses frame synchronisation when a frame's
      padding arrives in the next segment.  Sent in one segment both frames
      of `Split1 + Split2` are delivered; cut after the fifth byte, the
      second frame is lost and the padding is read as the header of an
      84-byte STUN message.  The corrected reassembly delivers both. */
  lemma PaddingSplitLosesFrame()
    ensures Receive(Decode, NoBuffer, Split1 + Split2, false).frames == [Split1, Frame2]
    ensures Feed(Decode, NoBuffer, [Split1, Split2], false).frames == [Split1]
    ensures Feed(Decode, NoBuffer, [Split1, Split2], true).frames == [Split1, Frame2]
  {
    DecodeSane();
    OneSegment();
    FirstSegment(false);
    FirstSegment(true);
    SecondSegmentAsWritten();
    SecondSegmentCorrected();
    FeedTwo(Decode, NoBuffer, Split1, Split2, false);
    FeedTwo(Decode, NoBuffer, Split1, Split2, true);
  }

  /** Two chunks deliver what the first call delivers, then what the
      second call delivers from the state the first left behind. */
  lemma FeedTwo(dec: Decoder, rx: Rx, c1: seq<byte>, c2: seq<byte>, keepPadding: bool)
    requires Sane(dec) && RxValid(rx)
    ensures var r1 := Receive(dec, rx, c1, keepPadding);
            Feed(dec, rx, [c1, c2], keepPadding).frames
            == r1.frames + Receive(dec, r1.rx, c2, keepPadding).frames
  {
    var r1 := Receive(dec, rx, c1, keepPadding);
    var cs: seq<seq<byte>> := [c1, c2];
    assert cs[1..] == [c2];
    assert cs[1..][1..] == [];
    var r2 := Receive(dec, r1.rx, c2, keepPadding);
    assert Feed(dec, r1.rx, [c2], keepPadding).frames == r2.frames + [];
  }

  /** A TCP connection (`struct conn`). */
  class Conn {
    var mb: Option<seq<byte>>
    var pos: nat
    var skip: nat
    const created: Time
    const peer: Addr
    const local: Addr
    const sock: nat

    function State(): Rx
      reads this
    {
      Rx(mb, pos, skip)
    }

    constructor(now: Time, peer: Addr, local: Addr, sock: nat)
      ensures State() == NoBuffer
      ensures this.created == now && this.peer == peer && this.local == local && this.sock == sock
    {
      mb := None;
      pos := 0;
      skip := 0;
      created := now;
      this.peer := peer;
      this.local := local;
      this.sock := sock;
    }

    /** `tcp_recv` with the corrected padding handling: the frames handed
        to `restund_process_msg`, in order, and whether the stream hit a
        framing error (EBADMSG). */
    method Recv(chunk: seq<byte>) returns (frames: seq<seq<byte>>, bad: bool)
      requires RxValid(State())
      modifies this
      ensures Received(frames, State(), bad) == Receive(Decode, old(State()), chunk, true)
    {
      DecodeSane();
      if skip > 0 && skip >= |chunk| {
        skip := skip - |chunk|;
        return [], false;
      }
      var b := Buffered(State(), chunk);
      var p;
      frames, p, bad := Scan(Decode, b, pos);
      if bad {
        mb, pos, skip := None, 0, 0;
      } else if |frames| > 0 && p >= |b| {
        mb, pos, skip := None, 0, p - |b|;
      } else {
        mb, pos, skip := Some(b), p, 0;
      }
    }
  }

  /** The 4-byte alignment loop after each frame of `tcp_recv`: the
      length counted up to the next multiple of 4. */
  method AlignUp(n: nat) returns (len: nat)
    ensures len == Align4(n) && len % 4 == 0 && n <= len < n + 4
  {
    len := n;
    while len % 4 != 0
      invariant n <= len <= Align4(n) && Align4(len) == Align4(n)
      decreases Align4(n) - len
    {
      Align4Step(len);
      len := len + 1;
    }
    Align4Exact(len);
  }

  /** One whole frame moves from the scan still to come to the frames
      delivered. */
  lemma ScanStep(dec: Decoder, b: seq<byte>, p0: nat, frames: seq<seq<byte>>, p: nat, f: seq<byte>, len: nat)
    requires Sane(dec) && p + 4 <= |b| && HeaderAt(dec, b, p).Whole? && p + HeaderAt(dec, b, p).size <= |b|
    requires f == b[p..p + HeaderAt(dec, b, p).size] && len == Align4(HeaderAt(dec, b, p).size)
    requires Frames(dec, b, p0) == Join(Parse(frames, p, false), Frames(dec, b, p))
    ensures Frames(dec, b, p0) == Join(Parse(frames + [f], p + len, false), Frames(dec, b, p + len))
  {
    FramesWhole(dec, b, p);
    FramesAt(dec, b, p + Align4(HeaderAt(dec, b, p).size), p + len);
    JoinCons(frames, p, p + len, f, Frames(dec, b, p + len));
  }

  /** Where the scan stops, the frames found so far are all there are. */
  lemma ScanDone(dec: Decoder, b: seq<byte>, p0: nat, frames: seq<seq<byte>>, p: nat, bad: bool)
    requires Sane(dec) && Frames(dec, b, p0) == Join(Parse(frames, p, false), Frames(dec, b, p))
    requires Incomplete(dec, b, p) || !HeaderAt(dec, b, p).Whole?
    requires bad == !Incomplete(dec, b, p)
    ensures Parse(frames, p, bad) == Frames(dec, b, p0)
  {
    FramesStop(dec, b, p);
    assert frames + [] == frames;
  }

  /** The `for (;;)` loop of `tcp_recv` over the buffered bytes `b` from
      the read position `p0`: the frames it delivers, the position where it
      stops, and whether it stopped on a framing error. */
  method Scan(dec: Decoder, b: seq<byte>, p0: nat) returns (frames: seq<seq<byte>>, p: nat, bad: bool)
    requires Sane(dec)
    ensures Parse(frames, p, bad) == Frames(dec, b, p0)
  {
    p := p0;
    frames := [];
    bad := false;
    while p + 4 <= |b|
      invariant p0 <= p
      invariant Frames(dec, b, p0) == Join(Parse(frames, p, false), Frames(dec, b, p))
      decreases |b| - p
    {
      var h := HeaderAt(dec, b, p);
      if !h.Whole? {
        ScanDone(dec, b, p0, frames, p, true);
        return frames, p, true;
      }
      if p + h.size > |b| {
        ScanDone(dec, b, p0, frames, p, false);
        return frames, p, false;
      }
      var f := b[p..p + h.size];
      var len := AlignUp(h.size);
      ScanStep(dec, b, p0, frames, p, f, len);
      frames := frames + [f];
      p := p + len;
    }
    ScanDone(dec, b, p0, frames, p, false);
  }

  /** Whether the reaper keeps a connection: it is in use by someone else
      (an allocation holds its socket), or it is at most 60 seconds old. */
  predicate Keeps(c: Conn, now: Time, busy: set<Conn>)
  {
    c in busy || now <= c.created + IDLE_AGE
  }

  /** The connections that survive the reaper, in list order.  This is the
      corrected reaper, which closes every idle connection older than 60
      seconds; the released loop stops after the first one it closes, see
      `SurvivorsAsWritten`. */
  function Survivors(cs: seq<Conn>, now: Time, busy: set<Conn>): (r: seq<Conn>)
    ensures forall c :: c in r ==> c in cs && Keeps(c, now, busy)
    ensures forall c :: c in cs && Keeps(c, now, busy) ==> c in r
    ensures |r| <= |cs|
  {
    if |cs| == 0 then []
    else
      assert forall c :: c in cs ==> c == cs[0] || c in cs[1..];
      if Keeps(cs[0], now, busy) then [cs[0]] + Survivors(cs[1..], now, busy)
      else Survivors(cs[1..], now, busy)
  }

  lemma SurvivorsAppend(cs: seq<Conn>, c: Conn, now: Time, busy: set<Conn>)
    ensures Survivors(cs + [c], now, busy)
         == Survivors(cs, now, busy) + (if Keeps(c, now, busy) then [c] else [])
  {
    if |cs| > 0 {
      assert (cs + [c])[1..] == cs[1..] + [c];
    } else {
      assert [c][1..] == [];
    }
  }

  /** The reaper as written: it calls `mem_deref` on a connection inside
      the walk over `tcl`, and the destructor unlinks the very element whose
      `next` the loop reads afterwards.  libre's `list_unlink` clears `next`
      (and the element is freed), so the walk ends after the first
      connection it closes and every later one is kept. */
  function SurvivorsAsWritten(cs: seq<Conn>, now: Time, busy: set<Conn>): (r: seq<Conn>)
    ensures |cs| <= |r| + 1 && |r| <= |cs|
    ensures forall c :: c in r ==> c in cs
    ensures forall c :: c in cs && Keeps(c, now, busy) ==> c in r
  {
    if |cs| == 0 then []
    else
      assert forall c :: c in cs ==> c == cs[0] || c in cs[1..];
      if Keeps(cs[0], now, busy) then [cs[0]] + SurvivorsAsWritten(cs[1..], now, busy)
      else cs[1..]
  }

  /** Two idle connections older than 60 seconds: the released reaper
      closes only the first, the corrected one closes both. */
  lemma ReaperStopsAsWritten(c1: Conn, c2: Conn, now: Time, busy: set<Conn>)
    requires !Keeps(c1, now, busy) && !Keeps(c2, now, busy)
    ensures SurvivorsAsWritten([c1, c2], now, busy) == [c2]
    ensures Survivors([c1, c2], now, busy) == []
  {
    assert [c1, c2][1..] == [c2];
    assert [c2][1..] == [];
  }

  /** A reaper that keeps every connection keeps the list as it is. */
  lemma {:induction false} SurvivorsAll(cs: seq<Conn>, now: Time, busy: set<Conn>)
    requires forall i :: 0 <= i < |cs| ==> Keeps(cs[i], now, busy)
    ensures Survivors(cs, now, busy) == cs
  {
    if |cs| > 0 {
      SurvivorsAll(cs[1..], now, busy);
    }
  }

  /** The two reapers agree when nothing follows the first connection to
      close but connections to keep: the released loop then misses
      nothing. */
  lemma {:induction false} SurvivorsAsWrittenAgree(cs: seq<Conn>, now: Time, busy: set<Conn>)
    requires forall i, j :: 0 <= i < j < |cs| && !Keeps(cs[i], now, busy) ==> Keeps(cs[j], now, busy)
    ensures SurvivorsAsWritten(cs, now, busy) == Survivors(cs, now, busy)
  {
    if |cs| > 0 {
      if Keeps(cs[0], now, busy) {
        SurvivorsAsWrittenAgree(cs[1..], now, busy);
      } else {
        SurvivorsAll(cs[1..], now, busy);
      }
    }
  }

  class TcpServer {
    /** `tcl`, in accept order. */
    var conns: seq<Conn>
    /** `lstnrl`, in configuration order. */
    var listeners: seq<Listener>
    var nextSock: nat

    constructor(listeners: seq<Listener>)
      ensures this.conns == [] && this.listeners == listeners
    {
      conns := [];
      this.listeners := listeners;
      nextSock := 0;
    }

    /** `tcp_conn_handler`: first close every connection that is idle and
        older than 60 seconds, then append the new one; if accepting fails
        the new connection is destroyed again. */
    method Accept(now: Time, peer: Addr, local: Addr, busy: set<Conn>, acceptOk: bool)
      returns (c: Option<Conn>)
      modifies this
      ensures c.Some? <==> acceptOk
      ensures c.Some? ==> fresh(c.value) && c.value.State() == NoBuffer
                          && c.value.created == now && c.value.peer == peer
      ensures conns == Survivors(old(conns), now, busy) + (if acceptOk then [c.value] else [])
      ensures listeners == old(listeners)
    {
      var cs := conns;
      var kept: seq<Conn> := [];
      var i := 0;
      while i < |cs|
        invariant 0 <= i <= |cs|
        invariant kept == Survivors(cs[..i], now, busy)
        invariant conns == cs && listeners == old(listeners)
      {
        assert cs[..i + 1] == cs[..i] + [cs[i]];
        SurvivorsAppend(cs[..i], cs[i], now, busy);
        if Keeps(cs[i], now, busy) {
          kept := kept + [cs[i]];
        }
        i := i + 1;
      }
      assert cs[..|cs|] == cs;
      if !acceptOk {
        conns := kept;
        return None;
      }
      var n := new Conn(now, peer, local, nextSock);
      nextSock := nextSock + 1;
      conns := kept + [n];
      return Some(n);
    }

    /** One chunk on connection `c` (`tcp_recv`, with the corrected
        padding handling of `Conn.Recv`): the frames become TCP packets for
        the dispatcher from the connection's peer to its local address.  On a
        framing error an idle connection is destroyed (unlinked from `tcl`);
        a busy one only loses its buffer. */
    method OnData(c: Conn, chunk: seq<byte>, idle: bool) returns (packets: seq<Packet>)
      requires RxValid(c.State())
      modifies this, c
      ensures var r := Receive(Decode, old(c.State()), chunk, true);
              && c.State() == r.rx
              && |packets| == |r.frames|
              && (forall k :: 0 <= k < |packets| ==>
                    packets[k] == Packet(Tcp, Some(c.sock), Some(c.peer), Some(c.local), Some(r.frames[k])))
              && (r.bad && idle ==> conns == Unlinked(old(conns), c))
              && (!(r.bad && idle) ==> conns == old(conns))
      ensures listeners == old(listeners)
    {
      var frames, bad := c.Recv(chunk);
      packets := [];
      var k := 0;
      while k < |frames|
        invariant 0 <= k <= |frames|
        invariant |packets| == k
        invariant forall j :: 0 <= j < k ==>
                    packets[j] == Packet(Tcp, Some(c.sock), Some(c.peer), Some(c.local), Some(frames[j]))
      {
        packets := packets + [Packet(Tcp, Some(c.sock), Some(c.peer), Some(c.local), Some(frames[k]))];
        k := k + 1;
      }
      if bad && idle {
        conns := Unlinked(conns, c);
      }
    }

    /** `restund_tcp_socket`: the first listener not on the IP of `orig`
        (when `chIp`) and not on its port (when `chPort`). */
    method Socket(orig: Addr, chIp: bool, chPort: bool) returns (r: Option<Listener>)
      ensures r == Pick(listeners, orig, chIp, chPort, SaAddr)
    {
      r := Select(listeners, orig, chIp, chPort, SaAddr);
    }
  }

  /** The connection list after destroying `c`. */
  function Unlinked(cs: seq<Conn>, c: Conn): (r: seq<Conn>)
    ensures forall x :: x in r ==> x in cs && x != c
    ensures forall x :: x in cs && x != c ==> x in r
  {
    if |cs| == 0 then []
    else
      assert forall x :: x in cs ==> x == cs[0] || x in cs[1..];
      if cs[0] == c then Unlinked(cs[1..], c) else [cs[0]] + Unlinked(cs[1..], c)
  }
}
