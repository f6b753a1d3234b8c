/** When the writer ends its padding, and what every piece of a write is: stated over the bytes written and the fields
    of the filter. */
module VisionClosing {
  import opened Bytes
  import opened VisionFrames
  import opened VisionFilter
  import opened VisionWriting

  /** Application data of a TLS connection: a record of type 23 and version 3.3. */
  predicate IsData(f: Filter, c: seq<byte>) {
    f.tls && |c| >= 6 && c[0] == 0x17 && c[1] == 3 && c[2] == 3
  }

  /** The filter has seen no TLS 1.2 or later, and is about to stop looking. */
  predicate GivesUp(f: Filter) {
    !f.tls12 && f.packets <= 1
  }

  /** At this buffer the writer gives up. */
  predicate StopsAt(f: Filter, mb: MultiBuffer, i: nat)
    requires i < |mb|
  {
    GivesUp(f) && !IsData(f, mb[i].Content())
  }

  predicate NoStop(f: Filter, mb: MultiBuffer, k: nat)
    requires k <= |mb|
  {
    forall j :: 0 <= j < k ==> !StopsAt(f, mb, j)
  }

  predicate SomeData(f: Filter, mb: MultiBuffer, k: nat)
    requires k <= |mb|
  {
    exists j :: 0 <= j < k && IsData(f, mb[j].Content())
  }

  /** The padding of a frame: 900 to 1399 bytes together with a short content if it is long, otherwise up to 255, and
      never more than what a buffer of 8192 bytes has left behind 21 bytes and the content. */
  predicate Padded(frame: Frame, long: bool, d: Draw) {
    var n := |frame.content|;
    var wanted := if n < 900 && long then 900 + d.long - n else d.short;
    |frame.padding| == if wanted > 8171 - n then 8171 - n else wanted
  }

  /** The command of the frame of buffer `i`: End where the writer gives up; on the last buffer, if padding has ended,
      Direct or End by the verdict of the filter; otherwise Continue. */
  function CommandAt(f: Filter, ended: bool, mb: MultiBuffer, i: nat): byte
    requires i < |mb|
  {
    if StopsAt(f, mb, i) then 1
    else if i == |mb| - 1 && (ended || SomeData(f, mb, i + 1)) then if f.enableXtls then 2 else 1
    else 0
  }

  /** What piece `i` is: a frame up to where the writer gives up, the buffer itself behind that. The padding is long for
      application data, and before it if the connection is TLS. */
  predicate PieceAt(f: Filter, ended: bool, once: seq<byte>, long: bool, mb: MultiBuffer, ds: seq<Draw>, p: Piece,
                    i: nat)
    requires i < |mb| <= |ds|
  {
    if NoStop(f, mb, i) then
      && p.Framed? && p.prefix == (if i == 0 then once else [])
      && p.frame.command == CommandAt(f, ended, mb, i) && p.frame.content == mb[i].Content()
      && Padded(p.frame, IsData(f, mb[i].Content()) || (long && !SomeData(f, mb, i)), ds[i])
    else p == Raw(mb[i])
  }

  lemma DataTested(b: seq<byte>)
    ensures LooksLikeApplicationData(b) <==> |b| >= 6 && b[0] == 0x17 && b[1] == 3 && b[2] == 3
  {
    if |b| >= 6 {
      assert b[..3] == [b[0], b[1], b[2]];
    }
  }

  // --- the same conditions behind the first buffer ---

  lemma NoStopCons(f: Filter, mb: MultiBuffer, k: nat)
    requires 0 < k <= |mb|
    ensures NoStop(f, mb, k) <==> !StopsAt(f, mb, 0) && NoStop(f, mb[1..], k - 1)
  {
    assert forall j :: 0 < j < k ==> mb[j] == mb[1..][j - 1];
    if !StopsAt(f, mb, 0) && NoStop(f, mb[1..], k - 1) {
      forall j | 0 <= j < k ensures !StopsAt(f, mb, j) {
        assert j > 0 ==> !StopsAt(f, mb[1..], j - 1);
      }
    }
    if NoStop(f, mb, k) {
      forall j | 0 <= j < k - 1 ensures !StopsAt(f, mb[1..], j) {
        assert !StopsAt(f, mb, j + 1);
      }
    }
  }

  lemma SomeDataCons(f: Filter, mb: MultiBuffer, k: nat)
    requires 0 < k <= |mb|
    ensures SomeData(f, mb, k) <==> IsData(f, mb[0].Content()) || SomeData(f, mb[1..], k - 1)
  {
    assert forall j :: 0 < j < k ==> mb[j] == mb[1..][j - 1];
    if SomeData(f, mb[1..], k - 1) {
      var j :| 0 <= j < k - 1 && IsData(f, mb[1..][j].Content());
      assert IsData(f, mb[j + 1].Content());
    }
  }

  // --- the padding loop, piece by piece ---

  lemma FramePadded(once: seq<byte>, b: Slot, command: byte, long: bool, d: Draw)
    requires |once| <= 16 && |b.Content()| <= SIZE - OVERHEAD
    ensures
      var p := Pad(once, b, command, long, d);
      && p.Framed? && p.prefix == once && p.frame.command == command && p.frame.content == b.Content()
      && Padded(p.frame, long, d)
  {
  }

  lemma FirstPiece(f: Filter, w: Writer, long: bool, mb: MultiBuffer, ds: seq<Draw>)
    requires mb != [] && |ds| >= |mb| && Roomy(mb) && |w.once| <= 16
    ensures |PadFrom(f, w, long, mb, ds).pieces| >= 1
    ensures PieceAt(f, !w.padding, w.once, long, mb, ds, PadFrom(f, w, long, mb, ds).pieces[0], 0)
  {
    var c := Choose(f, w.padding, w.direct, long, mb[0].Content(), |mb| == 1);
    FirstChoice(f, w, long, mb);
    FramePadded(w.once, mb[0], c.command, c.long, ds[0]);
  }

  lemma FirstChoice(f: Filter, w: Writer, long: bool, mb: MultiBuffer)
    requires mb != []
    ensures
      var c := Choose(f, w.padding, w.direct, long, mb[0].Content(), |mb| == 1);
      && c.command == CommandAt(f, !w.padding, mb, 0)
      && c.long == (IsData(f, mb[0].Content()) || (long && !SomeData(f, mb, 0)))
  {
    DataTested(mb[0].Content());
    SomeDataCons(f, mb, 1);
  }

  /** How a frame lies in its buffer: behind the UUID if it is the first, one byte of command, two bytes of content
      length and two of padding length, the higher byte first, then the content and the padding. */
  lemma FramedOnWire(p: Piece)
    requires p.Framed? && p.Ok()
    ensures
      var b, k, n := p.Bytes(), |p.prefix|, |p.frame.content|;
      && |b| == k + 5 + n + |p.frame.padding| && b[..k] == p.prefix
      && b[k] == p.frame.command && BigEndian(b[k + 1], b[k + 2]) == n
      && BigEndian(b[k + 3], b[k + 4]) == |p.frame.padding|
      && b[k + 5..k + 5 + n] == p.frame.content && b[k + 5 + n..] == p.frame.padding
  {
    FrameBytes(p.prefix, p.frame);
    Laid(p.prefix, p.frame.Header(), p.frame.content, p.frame.padding);
  }

  lemma Laid(a: seq<byte>, h: seq<byte>, c: seq<byte>, d: seq<byte>)
    ensures
      var b, k := a + h + c + d, |a| + |h|;
      && b[..|a|] == a && b[k..k + |c|] == c && b[k + |c|..] == d
      && forall i :: 0 <= i < |h| ==> b[|a| + i] == h[i]
  {
  }

  lemma {:induction false} RawsAt(mb: MultiBuffer, i: nat)
    requires i < |mb|
    ensures |Raws(mb)| == |mb| && Raws(mb)[i] == Raw(mb[i])
    decreases |mb|
  {
    if |mb| > 1 {
      RawsAt(mb[1..], if i > 0 then i - 1 else 0);
    }
  }

  /** What stands for a piece of the rest stands for it in the whole. */
  lemma LaterPiece(f: Filter, ended: bool, once: seq<byte>, long: bool, mb: MultiBuffer, ds: seq<Draw>, p: Piece,
                   i: nat)
    requires 0 < i < |mb| <= |ds| && !StopsAt(f, mb, 0)
    requires
      var data := IsData(f, mb[0].Content());
      PieceAt(f, ended || data, [], long && !data, mb[1..], ds[1..], p, i - 1)
    ensures PieceAt(f, ended, once, long, mb, ds, p, i)
  {
    NoStopCons(f, mb, i);
    SomeDataCons(f, mb, i);
    SomeDataCons(f, mb, i + 1);
    assert mb[1..][i - 1] == mb[i] && ds[1..][i - 1] == ds[i];
    assert StopsAt(f, mb[1..], i - 1) == StopsAt(f, mb, i);
  }

  /** The writer behind a buffer at which it does not give up. */
  function Next(f: Filter, w: Writer, b: seq<byte>): Writer {
    Writer(w.padding && !IsData(f, b), w.direct || (IsData(f, b) && f.enableXtls), [])
  }

  lemma ChoiceMeans(f: Filter, w: Writer, long: bool, mb: MultiBuffer)
    requires mb != []
    ensures
      var b := mb[0].Content();
      var c := Choose(f, w.padding, w.direct, long, b, |mb| == 1);
      && c.stop == StopsAt(f, mb, 0)
      && (c.stop ==> !c.padding && c.direct == w.direct)
      && (!c.stop ==> Writer(c.padding, c.direct, []) == Next(f, w, b) && c.nextLong == (long && !IsData(f, b)))
  {
    DataTested(mb[0].Content());
  }

  /** The pieces behind the first. */
  lemma PadFromRest(f: Filter, w: Writer, long: bool, mb: MultiBuffer, ds: seq<Draw>)
    requires mb != [] && |ds| >= |mb| && Roomy(mb) && |w.once| <= 16
    ensures
      var ps, b := PadFrom(f, w, long, mb, ds).pieces, mb[0].Content();
      && ps != []
      && ps[1..] == if StopsAt(f, mb, 0) then Raws(mb[1..])
                    else PadFrom(f, Next(f, w, b), long && !IsData(f, b), mb[1..], ds[1..]).pieces
  {
    ChoiceMeans(f, w, long, mb);
  }

  lemma {:induction false} PiecesExactly(f: Filter, w: Writer, long: bool, mb: MultiBuffer, ds: seq<Draw>, i: nat)
    requires |ds| >= |mb| && Roomy(mb) && |w.once| <= 16 && i < |mb|
    ensures |PadFrom(f, w, long, mb, ds).pieces| == |mb|
    ensures PieceAt(f, !w.padding, w.once, long, mb, ds, PadFrom(f, w, long, mb, ds).pieces[i], i)
    decreases |mb|
  {
    var ps, rest, b := PadFrom(f, w, long, mb, ds).pieces, mb[1..], mb[0].Content();
    var k := if i > 0 then i - 1 else 0;
    PadFromRest(f, w, long, mb, ds);
    if rest == [] {
      assert ps[1..] == [];
    } else if StopsAt(f, mb, 0) {
      RawsAt(rest, k);
    } else {
      PiecesExactly(f, Next(f, w, b), long && !IsData(f, b), rest, ds[1..], k);
    }
    if i == 0 {
      FirstPiece(f, w, long, mb, ds);
    } else {
      assert ps[i] == ps[1..][k];
      if StopsAt(f, mb, 0) {
        NoStopCons(f, mb, i);
      } else {
        LaterPiece(f, !w.padding, w.once, long, mb, ds, ps[i], i);
      }
    }
  }

  predicate PiecesAre(f: Filter, ended: bool, once: seq<byte>, long: bool, mb: MultiBuffer, ds: seq<Draw>,
                      ps: seq<Piece>)
    requires |mb| <= |ds|
  {
    |ps| == |mb| && forall i :: 0 <= i < |mb| ==> PieceAt(f, ended, once, long, mb, ds, ps[i], i)
  }

  lemma LoopPieces(f: Filter, w: Writer, long: bool, mb: MultiBuffer, ds: seq<Draw>)
    requires |ds| >= |mb| && Roomy(mb) && |w.once| <= 16
    ensures PiecesAre(f, !w.padding, w.once, long, mb, ds, PadFrom(f, w, long, mb, ds).pieces)
  {
    var ps := PadFrom(f, w, long, mb, ds).pieces;
    if mb == [] {
      assert ps == [];
    } else {
      PiecesExactly(f, w, long, mb, ds, 0);
      forall i | 0 <= i < |mb| ensures PieceAt(f, !w.padding, w.once, long, mb, ds, ps[i], i) {
        PiecesExactly(f, w, long, mb, ds, i);
      }
    }
  }

  /** Some buffer before the one where the writer gives up is application data. */
  predicate DataFirst(f: Filter, mb: MultiBuffer) {
    exists j :: 0 <= j < |mb| && NoStop(f, mb, j) && IsData(f, mb[j].Content())
  }

  lemma DataFirstCons(f: Filter, mb: MultiBuffer)
    requires mb != []
    ensures DataFirst(f, mb) <==> IsData(f, mb[0].Content()) || (!StopsAt(f, mb, 0) && DataFirst(f, mb[1..]))
  {
    if DataFirst(f, mb) && !IsData(f, mb[0].Content()) {
      var j :| 0 <= j < |mb| && NoStop(f, mb, j) && IsData(f, mb[j].Content());
      NoStopCons(f, mb, j);
      assert mb[1..][j - 1] == mb[j];
    }
    if IsData(f, mb[0].Content()) {
      assert NoStop(f, mb, 0);
    } else if !StopsAt(f, mb, 0) && DataFirst(f, mb[1..]) {
      var j :| 0 <= j < |mb[1..]| && NoStop(f, mb[1..], j) && IsData(f, mb[1..][j].Content());
      NoStopCons(f, mb, j + 1);
      assert mb[1..][j] == mb[j + 1];
    }
  }

  lemma {:induction false} FlagsExactly(f: Filter, w: Writer, long: bool, mb: MultiBuffer, ds: seq<Draw>)
    requires |ds| >= |mb| && Roomy(mb) && |w.once| <= 16
    ensures
      var w' := PadFrom(f, w, long, mb, ds).writer;
      && (w'.padding <==> w.padding && !DataFirst(f, mb) && NoStop(f, mb, |mb|))
      && (w'.direct <==> w.direct || (f.enableXtls && DataFirst(f, mb)))
    decreases |mb|
  {
    if mb != [] {
      var b := mb[0].Content();
      ChoiceMeans(f, w, long, mb);
      DataFirstCons(f, mb);
      NoStopCons(f, mb, |mb|);
      if !StopsAt(f, mb, 0) {
        FlagsExactly(f, Next(f, w, b), long && !IsData(f, b), mb[1..], ds[1..]);
      }
    }
  }

  // --- one write ---

  lemma ClosedMeaning(f: Filter, mb: MultiBuffer)
    ensures DataFirst(f, mb) || !NoStop(f, mb, |mb|) <==> SomeData(f, mb, |mb|) || (mb != [] && GivesUp(f))
  {
    if mb != [] && GivesUp(f) && !SomeData(f, mb, |mb|) {
      assert StopsAt(f, mb, 0);
    }
    if mb != [] && GivesUp(f) && NoStop(f, mb, |mb|) {
      assert !StopsAt(f, mb, 0);
      assert NoStop(f, mb, 0);
    }
    if SomeData(f, mb, |mb|) && NoStop(f, mb, |mb|) {
      var j :| 0 <= j < |mb| && IsData(f, mb[j].Content());
      assert NoStop(f, mb, j);
    }
  }

  /** A write while padding lasts, of anything but a single nil. Padding ends if and only if a reshaped buffer is
      application data, or there is a buffer at all and the filter has given up on TLS. Raw copy is switched on if and
      only if the filter allows it and application data comes before that. Every piece is what PieceAt says. */
  lemma WriteExactly(f: Filter, w: Writer, mb: MultiBuffer, ds: seq<Draw>)
    requires w.padding && !w.direct && |w.once| <= 16 && |ds| >= 2 * |mb| && mb != [Nil]
    ensures
      var r, rs := Write(f, w, mb, ds), Reshape(mb);
      && |rs| <= |ds| && PiecesAre(f, false, w.once, f.tls, rs, ds, r.pieces)
      && (!r.writer.padding <==> SomeData(f, rs, |rs|) || (rs != [] && GivesUp(f)))
      && (r.writer.direct <==> f.enableXtls && DataFirst(f, rs))
  {
    var rs := Reshape(mb);
    ReshapeCorrect(mb);
    assert Write(f, w, mb, ds) == PadFrom(f, w, f.tls, rs, ds);
    LoopPieces(f, w, f.tls, rs, ds);
    FlagsExactly(f, w, f.tls, rs, ds);
    ClosedMeaning(f, rs);
  }

  /** The terminating frame of such a write: where the writer first gives up, always an End frame, with the rest of the
      buffers behind it as they are; or else, once there has been application data, the last piece, a Direct frame if
      and only if the filter allows raw copy. All frames before it say Continue. */
  lemma TerminatorExactly(f: Filter, w: Writer, mb: MultiBuffer, ds: seq<Draw>, k: nat)
    requires w.padding && !w.direct && |w.once| <= 16 && |ds| >= 2 * |mb| && mb != [Nil] && k < |Reshape(mb)|
    ensures
      var ps, rs := Write(f, w, mb, ds).pieces, Reshape(mb);
      && |ps| == |rs|
      && (NoStop(f, rs, k) && StopsAt(f, rs, k) ==>
            && ps[k].Framed? && ps[k].frame.command == 1
            && forall i :: k < i < |rs| ==> ps[i] == Raw(rs[i]))
      && (NoStop(f, rs, |rs|) && SomeData(f, rs, |rs|) && k == |rs| - 1 ==>
            ps[k].Framed? && ps[k].frame.command == if f.enableXtls then 2 else 1)
      && (NoStop(f, rs, k) && !StopsAt(f, rs, k) && (k < |rs| - 1 || !SomeData(f, rs, |rs|)) ==>
            ps[k].Framed? && ps[k].frame.command == 0)
  {
    var ps, rs := Write(f, w, mb, ds).pieces, Reshape(mb);
    WriteExactly(f, w, mb, ds);
    assert PieceAt(f, false, w.once, f.tls, rs, ds, ps[k], k);
    if StopsAt(f, rs, k) {
      forall i | k < i < |rs| ensures ps[i] == Raw(rs[i]) {
        assert PieceAt(f, false, w.once, f.tls, rs, ds, ps[i], i);
        assert !NoStop(f, rs, i);
      }
    }
  }

  /** The other two writes: a single nil is a long-padded empty Continue frame, and once padding has ended everything
      goes out as it is. Neither changes a flag. */
  lemma OtherWrites(f: Filter, w: Writer, mb: MultiBuffer, ds: seq<Draw>)
    requires |w.once| <= 16 && |ds| >= 2 * |mb|
    ensures w.padding && mb == [Nil] ==>
              var r := Write(f, w, mb, ds);
              && r.writer == w.(once := []) && |r.pieces| == 1 && r.pieces[0].Framed?
              && r.pieces[0].prefix == w.once && r.pieces[0].frame.command == 0
              && r.pieces[0].frame.content == [] && |r.pieces[0].frame.padding| == 900 + ds[0].long
    ensures !w.padding ==>
              var r := Write(f, w, mb, ds);
              r.writer == w && |r.pieces| == |mb| && forall i :: 0 <= i < |mb| ==> r.pieces[i] == Raw(mb[i])
  {
    if !w.padding {
      RawsCorrect(mb);
      forall i | 0 <= i < |mb| ensures Raws(mb)[i] == Raw(mb[i]) {
        RawsAt(mb, i);
      }
    } else if mb == [Nil] {
      FramePadded(w.once, Nil, CONTINUE, true, ds[0]);
    }
  }

  // --- where an oversized buffer is cut ---

  predicate DataRecordAt(c: seq<byte>, j: int) {
    0 <= j <= |c| - 3 && c[j] == 0x17 && c[j + 1] == 3 && c[j + 2] == 3
  }

  predicate LastDataRecord(c: seq<byte>, j: int) {
    DataRecordAt(c, j) && forall k :: j < k <= |c| - 3 ==> !DataRecordAt(c, k)
  }

  lemma OccursTested(c: seq<byte>, j: int)
    ensures OccursAt(c, APPLICATION_DATA_START, j) <==> DataRecordAt(c, j)
  {
    if 0 <= j <= |c| - 3 {
      assert c[j..j + 3] == [c[j], c[j + 1], c[j + 2]];
    }
  }

  /** A buffer of 8171 bytes or more is cut in two: in front of its last application-data record if that starts at 21 to
      8171, otherwise at 4096. A shorter one is left alone. */
  lemma CutExactly(b: Slot, i: nat)
    requires i <= |b.Content()|
    ensures |b.Content()| < 8171 ==> ReshapeOne(b) == [b]
    ensures |b.Content()| >= 8171 && LastDataRecord(b.Content(), i) && 21 <= i <= 8171 ==>
              ReshapeOne(b) == [Buf(b.Content()[..i]), Buf(b.Content()[i..])]
    ensures |b.Content()| >= 8171 && (forall j :: LastDataRecord(b.Content(), j) ==> j < 21 || j > 8171) ==>
              ReshapeOne(b) == [Buf(b.Content()[..4096]), Buf(b.Content()[4096..])]
  {
    var c := b.Content();
    if |c| >= 8171 {
      var j := LastIndex(c, APPLICATION_DATA_START);
      forall k ensures OccursAt(c, APPLICATION_DATA_START, k) <==> DataRecordAt(c, k) {
        OccursTested(c, k);
      }
      if j >= 0 {
        assert LastDataRecord(c, j);
      }
      if LastDataRecord(c, i) {
        assert OccursAt(c, APPLICATION_DATA_START, i);
      }
    }
  }
}
