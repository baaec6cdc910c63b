/**
 Decoding of the chunked transfer coding (RFC 9112, section 7.1) as the agent does it, and
 its relation to the encoding.
 */
module Chunked {
  import opened Base
  import opened ByteSearch
  import opened ChunkSizes

  // ----- decoding -----

  /** `Crash`: a negative chunk size makes a slice run out of range. */
  datatype Decoding = Decoded(out: seq<byte>, done: bool) | Crash {
    function After(front: seq<byte>): Decoding {
      if Crash? then Crash else Decoded(front + out, done)
    }
  }

  /** The line end after chunk data is skipped if it is there. */
  function AfterData(b: seq<byte>): (r: seq<byte>)
    ensures |r| <= |b|
  {
    if |b| >= 2 && b[0] == CR && b[1] == LF then b[2..] else b
  }

  function Dechunked(b: seq<byte>): Decoding
    decreases |b|
  {
    var i := Index(b, CRLF);
    if i < 0 then Decoded([], false) else
    match ChunkSize(b[..i])
    case None => Decoded([], false)
    case Some(size) =>
      var rest := b[i + 2..];
      if size == 0 then Decoded([], true)
      else if size < 0 then Crash
      else if |rest| < size then Decoded(rest, false)
      else Dechunked(AfterData(rest[size..])).After(rest[..size])
  }

  /** The decoding loop. */
  method Dechunk(input: seq<byte>) returns (r: Decoding)
    ensures r == Dechunked(input)
  {
    hide ChunkSize, Index;
    var b, out := input, [];
    while true
      invariant Dechunked(input) == Dechunked(b).After(out)
      decreases |b|
    {
      var i := Index(b, CRLF);
      if i < 0 {
        return Decoded(out, false);
      }
      var size := ChunkSize(b[..i]);
      if size.None? {
        return Decoded(out, false);
      }
      b := b[i + 2..];
      if size.value == 0 {
        return Decoded(out, true);
      }
      if |b| < size.value {
        return Decoded(out + b, false);
      }
      if size.value < 0 {
        return Crash;
      }
      ghost var tail := Dechunked(AfterData(b[size.value..]));
      assert tail.After(b[..size.value]).After(out) == tail.After(out + b[..size.value]) by {
        if tail.Decoded? {
          assert out + (b[..size.value] + tail.out) == out + b[..size.value] + tail.out;
        }
      }
      out := out + b[..size.value];
      b := b[size.value..];
      if |b| >= 2 && b[0] == CR && b[1] == LF {
        b := b[2..];
      }
    }
  }

  /** Decoding a string whose first line is known. */
  lemma {:induction false} DechunkedLine(line: seq<byte>, rest: seq<byte>)
    requires Index(line, CRLF) == -1
    ensures Dechunked(line + CRLF + rest) ==
      match ChunkSize(line)
      case None => Decoded([], false)
      case Some(size) =>
        if size == 0 then Decoded([], true)
        else if size < 0 then Crash
        else if |rest| < size then Decoded(rest, false)
        else Dechunked(AfterData(rest[size..])).After(rest[..size])
  {
    hide ChunkSize, Index, AfterData;
    var b := line + CRLF + rest;
    IndexOfLineEnd(line, rest);
    assert b[..|line|] == line && b[|line| + 2..] == rest;
  }

  /** Decoding one whole chunk. */
  lemma {:induction false} DechunkedStep(line: seq<byte>, data: seq<byte>, tail: seq<byte>)
    requires Index(line, CRLF) == -1 && ChunkSize(line) == Some(|data|) && data != []
    ensures Dechunked(line + CRLF + data + tail) == Dechunked(AfterData(tail)).After(data)
  {
    hide ChunkSize, Index, Dechunked, AfterData;
    assert line + CRLF + data + tail == line + CRLF + (data + tail);
    DechunkedLine(line, data + tail);
    assert (data + tail)[..|data|] == data && (data + tail)[|data|..] == tail;
  }

  // ----- more bytes -----

  /** What more bytes may do to a decoding. */
  ghost predicate Grows(d: Decoding, e: Decoding) {
    match d
    case Crash => e == Crash
    case Decoded(out, done) => if done then e == d else e.Decoded? ==> out <= e.out
  }

  /**
   More bytes at the end never change what has been decoded: a finished decoding stays as it
   is, an unfinished one only grows, and a crash stays a crash.
   */
  lemma {:induction false} DechunkedExtend(b: seq<byte>, ext: seq<byte>)
    ensures Grows(Dechunked(b), Dechunked(b + ext))
    decreases |b|
  {
    hide ChunkSize, Index, AfterData, Dechunked;
    var i := Index(b, CRLF);
    if i < 0 {
      NoLine(b, Dechunked(b + ext));
    } else {
      var line, rest := SplitLine(b);
      assert b + ext == line + CRLF + (rest + ext);
      DechunkedLine(line, rest);
      DechunkedLine(line, rest + ext);
      var size := ChunkSize(line);
      if size.Some? && 0 < size.value {
        if |rest| < size.value {
          RestGrows(rest, ext, size.value);
        } else {
          var data, tail := rest[..size.value], rest[size.value..];
          assert (rest + ext)[..size.value] == data && (rest + ext)[size.value..] == tail + ext;
          TailGrows(tail, ext, data);
          if |tail| >= 2 {
            DechunkedExtend(AfterData(tail), ext);
          }
        }
      }
    }
  }

  lemma {:induction false} NoLine(b: seq<byte>, e: Decoding)
    requires Index(b, CRLF) < 0
    ensures Grows(Dechunked(b), e)
  {
    hide Index, ChunkSize;
  }

  /** The first line and what follows its end. */
  lemma {:induction false} SplitLine(b: seq<byte>) returns (line: seq<byte>, rest: seq<byte>)
    requires Index(b, CRLF) >= 0
    ensures b == line + CRLF + rest && Index(line, CRLF) == -1
  {
    var i := Index(b, CRLF);
    line, rest := b[..i], b[i + 2..];
    assert b == line + b[i..i + 2] + rest;
    forall j | 0 <= j
      ensures !At(line, CRLF, j)
    {
      if j + 2 <= i {
        assert line + b[i..] == b;
        AtExtend(line, b[i..], CRLF, j);
      }
    }
  }

  /** Data that is still short grows by what arrives. */
  lemma {:induction false} RestGrows(rest: seq<byte>, ext: seq<byte>, size: nat)
    requires |rest| < size
    ensures |rest + ext| < size ==> rest <= rest + ext
    ensures size <= |rest + ext| ==> forall d: Decoding :: Grows(Decoded(rest, false), d.After((rest + ext)[..size]))
  {
    if size <= |rest + ext| {
      forall d: Decoding
        ensures Grows(Decoded(rest, false), d.After((rest + ext)[..size]))
      {
        if d.Decoded? {
          assert (rest + ext)[..size] == rest + ext[..size - |rest|];
          assert (rest + ext)[..size] + d.out == rest + (ext[..size - |rest|] + d.out);
        }
      }
    }
  }

  lemma {:induction false} TailGrows(tail: seq<byte>, ext: seq<byte>, data: seq<byte>)
    ensures |tail| >= 2 ==> AfterData(tail + ext) == AfterData(tail) + ext
    ensures |tail| < 2 ==> Dechunked(AfterData(tail)) == Decoded([], false)
    ensures Grows(Dechunked(AfterData(tail)), Dechunked(AfterData(tail + ext))) ==>
      Grows(Dechunked(AfterData(tail)).After(data), Dechunked(AfterData(tail + ext)).After(data))
  {
    hide ChunkSize, TrimSpace;
    if |tail| < 2 {
      assert Index(AfterData(tail), CRLF) == -1;
    }
  }

  // ----- crashes -----

  /** A chunk as the decoder meets it: any size line, the data it announces, and perhaps the line end after it. */
  datatype Piece = Piece(line: seq<byte>, data: seq<byte>, ended: bool) {
    predicate Whole() {
      Index(line, CRLF) == -1 && ChunkSize(line) == Some(|data|) && data != []
    }

    function Bytes(): seq<byte> {
      line + CRLF + data + if ended then CRLF else []
    }
  }

  function Joined(pieces: seq<Piece>): seq<byte> {
    if pieces == [] then [] else pieces[0].Bytes() + Joined(pieces[1..])
  }

  predicate IsNegative(line: seq<byte>) {
    Index(line, CRLF) == -1 && ChunkSize(line).Some? && ChunkSize(line).value < 0
  }

  /** Whole chunks, then a complete line with a negative size, then anything. */
  ghost predicate RunsIntoNegative(b: seq<byte>, pieces: seq<Piece>, line: seq<byte>, rest: seq<byte>) {
    && (forall i :: 0 <= i < |pieces| ==> pieces[i].Whole())
    && IsNegative(line) && b == Joined(pieces) + (line + CRLF + rest)
  }

  lemma {:induction false} NoSizeInNothing()
    ensures ChunkSize([]) == None
  {
    assert Index([], [SEMICOLON]) == -1;
    assert TrimSpace([]) == [];
  }

  /** A size line does not look like the line end after chunk data. */
  lemma {:induction false} LineIsNoLineEnd(line: seq<byte>, rest: seq<byte>)
    requires Index(line, CRLF) == -1 && line != []
    ensures AfterData(line + CRLF + rest) == line + CRLF + rest
  {
    AtLineEnd(line, 0);
  }

  /** What follows whole chunks and begins with a size line is what the decoder goes on with. */
  lemma {:induction false} PieceRead(p: Piece, line: seq<byte>, rest: seq<byte>)
    requires p.Whole() && Index(line, CRLF) == -1 && line != []
    ensures Dechunked(p.Bytes() + (line + CRLF + rest)) == Dechunked(line + CRLF + rest).After(p.data)
  {
    hide ChunkSize, Index, Dechunked;
    var tail := (if p.ended then CRLF else []) + (line + CRLF + rest);
    assert p.Bytes() + (line + CRLF + rest) == p.line + CRLF + p.data + tail;
    DechunkedStep(p.line, p.data, tail);
    if p.ended {
      AfterLineEnd(line + CRLF + rest);
    } else {
      assert tail == line + CRLF + rest;
      LineIsNoLineEnd(line, rest);
    }
  }

  lemma {:induction false} NegativeCrashes(b: seq<byte>, pieces: seq<Piece>, line: seq<byte>, rest: seq<byte>)
    requires RunsIntoNegative(b, pieces, line, rest)
    ensures Dechunked(b) == Crash
    decreases |pieces|
  {
    hide ChunkSize, Index, Dechunked, AfterData;
    if pieces == [] {
      assert b == line + CRLF + rest;
      DechunkedLine(line, rest);
    } else {
      var p, tail := pieces[0], Joined(pieces[1..]) + (line + CRLF + rest);
      assert b == p.Bytes() + tail;
      NegativeCrashes(tail, pieces[1..], line, rest);
      NoSizeInNothing();
      if |pieces| == 1 {
        assert tail == line + CRLF + rest;
        PieceRead(p, line, rest);
      } else {
        var q := pieces[1];
        assert pieces[1..][0] == q;
        var after := q.data + (if q.ended then CRLF else []) + Joined(pieces[1..][1..]) + (line + CRLF + rest);
        assert tail == q.line + CRLF + after;
        PieceRead(p, q.line, after);
      }
    }
  }

  lemma {:induction false} PieceInFront(p: Piece, b: seq<byte>, pieces: seq<Piece>, line: seq<byte>, rest: seq<byte>)
    requires p.Whole() && RunsIntoNegative(b, pieces, line, rest)
    ensures RunsIntoNegative(p.Bytes() + b, [p] + pieces, line, rest)
  {
    hide Piece.Whole, Piece.Bytes, IsNegative;
    assert ([p] + pieces)[1..] == pieces;
    assert Joined([p] + pieces) == p.Bytes() + Joined(pieces);
  }

  /** A first chunk of a given size, cut off as the decoder does it. */
  lemma {:induction false} FirstPiece(line: seq<byte>, rest: seq<byte>, size: nat) returns (p: Piece)
    requires 0 < size <= |rest|
    ensures p.line == line && p.data == rest[..size]
    ensures line + CRLF + rest == p.Bytes() + AfterData(rest[size..])
  {
    var data, tail := rest[..size], rest[size..];
    p := Piece(line, data, AfterData(tail) != tail);
    var mark := if p.ended then CRLF else [];
    assert tail == mark + AfterData(tail);
    hide AfterData;
    assert rest == data + tail;
    assert p.Bytes() == line + CRLF + data + mark;
    assert line + CRLF + (data + (mark + AfterData(tail))) == line + CRLF + data + mark + AfterData(tail);
  }

  lemma {:induction false} PieceWhole(p: Piece)
    requires Index(p.line, CRLF) == -1 && ChunkSize(p.line) == Some(|p.data|) && p.data != []
    ensures p.Whole()
  {
  }

  /** One round of the decoder on a crashing input: a negative size, or a whole chunk and a crash later. */
  lemma {:induction false} CrashRound(b: seq<byte>) returns (line: seq<byte>, rest: seq<byte>)
    requires Dechunked(b) == Crash
    ensures Index(line, CRLF) == -1 && b == line + CRLF + rest && ChunkSize(line).Some?
    ensures var n := ChunkSize(line).value;
      n < 0 || (0 < n <= |rest| && Dechunked(AfterData(rest[n..])) == Crash)
  {
    hide ChunkSize, Index, AfterData;
    assert Index(b, CRLF) >= 0;
    line, rest := SplitLine(b);
    hide Dechunked;
    DechunkedLine(line, rest);
  }

  lemma {:induction false} CrashHasNegative(b: seq<byte>) returns (pieces: seq<Piece>, line: seq<byte>, rest: seq<byte>)
    requires Dechunked(b) == Crash
    ensures RunsIntoNegative(b, pieces, line, rest)
    decreases |b|
  {
    hide ChunkSize, Index, Dechunked, Piece.Whole, Piece.Bytes;
    line, rest := CrashRound(b);
    var n := ChunkSize(line).value;
    if n < 0 {
      pieces := [];
    } else {
      var after := AfterData(rest[n..]);
      var p := FirstPiece(line, rest, n);
      assert p.Whole() by { PieceWhole(p); }
      pieces, line, rest := CrashHasNegative(after);
      PieceInFront(p, after, pieces, line, rest);
      pieces := [p] + pieces;
    }
  }

  /**
   The decoder runs a slice out of range on exactly those inputs that are whole chunks, each
   with or without its line end, followed by a complete line with a negative size.
   */
  lemma {:induction false} CrashExactly(b: seq<byte>)
    ensures Dechunked(b) == Crash <==> exists pieces, line, rest :: RunsIntoNegative(b, pieces, line, rest)
  {
    hide Dechunked, RunsIntoNegative;
    if Dechunked(b) == Crash {
      var pieces, line, rest := CrashHasNegative(b);
    }
    if pieces, line, rest :| RunsIntoNegative(b, pieces, line, rest) {
      NegativeCrashes(b, pieces, line, rest);
    }
  }

  const MINUS_ONE: seq<byte> := [MINUS, 49]

  lemma {:induction false} MinusOneTrimmed()
    ensures TrimSpace(MINUS_ONE) == MINUS_ONE
  {
    hide IsWideSpace;
    assert SpaceFront(MINUS_ONE) == 0 && SpaceBack(MINUS_ONE) == 0;
  }

  lemma {:induction false} MinusOneParsed()
    ensures ParseHexInt(MINUS_ONE) == Some(-1)
  {
    assert MINUS_ONE[1..] == [49] && HexValue([49]) == 1;
  }

  /** One such input: a size of minus one. */
  lemma {:induction false} MinusOneCrashes()
    ensures Dechunked(MINUS_ONE + CRLF) == Crash
  {
    hide TrimSpace, ParseHexInt, Dechunked;
    MinusOneTrimmed();
    MinusOneParsed();
    AtLineEnd(MINUS_ONE, 0);
    assert MINUS_ONE[0..1] == [MINUS] && MINUS_ONE[1..2] == [49];
    assert Index(MINUS_ONE, CRLF) == -1 && Index(MINUS_ONE, [SEMICOLON]) == -1;
    assert MINUS_ONE + CRLF == MINUS_ONE + CRLF + [];
    DechunkedLine(MINUS_ONE, []);
  }

  // ----- the encoding -----

  /**
   One chunk: its size in hex, in any spelling and between white space, given by its code points,
   an optional extension, and its data.
   */
  datatype Chunk = Chunk(
    before: seq<White>, digits: seq<byte>, after: seq<White>, extension: seq<byte>, data: seq<byte>)
  {
    ghost predicate Valid() {
      && Spells(digits, |data|) && |data| <= MAX_INT64
      && (extension != [] ==> extension[0] == SEMICOLON)
      && Index(Line(), CRLF) == -1
    }

    function Size(): seq<byte> {
      Utf8Text(before) + digits + Utf8Text(after)
    }

    function Line(): seq<byte> {
      Size() + extension
    }

    function Encoded(): seq<byte> {
      Line() + CRLF + data + CRLF
    }
  }

  function Body(chunks: seq<Chunk>): seq<byte> {
    if chunks == [] then [] else chunks[0].data + Body(chunks[1..])
  }

  /** The chunks followed by the line of the zero-size chunk `last`. */
  function Coding(chunks: seq<Chunk>, last: Chunk): seq<byte> {
    if chunks == [] then last.Line() + CRLF else chunks[0].Encoded() + Coding(chunks[1..], last)
  }

  ghost predicate ValidMessage(chunks: seq<Chunk>, last: Chunk) {
    && (forall i :: 0 <= i < |chunks| ==> chunks[i].Valid() && chunks[i].data != [])
    && last.Valid() && last.data == []
  }

  lemma {:induction false} SizeOfLine(c: Chunk)
    requires c.Valid()
    ensures ChunkSize(c.Line()) == Some(|c.data|)
  {
    hide TrimSpace, ParseHexInt, Utf8Text, Spells;
    assert Numeral(c.digits, |c.data|);
    hide Numeral;
    SizeText(c.before, c.digits, c.after, |c.data|);
    LineSize(c.Size(), c.extension);
  }

  lemma {:induction false} DechunkedLast(last: Chunk, rest: seq<byte>)
    requires last.Valid() && last.data == []
    ensures Dechunked(last.Line() + CRLF + rest) == Decoded([], true)
  {
    hide ChunkSize, Spells, Index;
    IndexOfLineEnd(last.Line(), rest);
    SizeOfLine(last);
    assert (last.Line() + CRLF + rest)[..|last.Line()|] == last.Line();
  }

  /** Decoding inverts encoding, whatever follows the zero-size line. */
  lemma {:induction false} DechunkedCoding(chunks: seq<Chunk>, last: Chunk, rest: seq<byte>)
    requires ValidMessage(chunks, last)
    ensures Dechunked(Coding(chunks, last) + rest) == Decoded(Body(chunks), true)
    decreases |chunks|
  {
    hide ChunkSize, Spells, Dechunked, Index;
    if chunks == [] {
      DechunkedLast(last, rest);
    } else {
      var c, tail := chunks[0], Coding(chunks[1..], last) + rest;
      assert Coding(chunks, last) + rest == c.Line() + CRLF + c.data + (CRLF + tail);
      SizeOfLine(c);
      DechunkedStep(c.Line(), c.data, CRLF + tail);
      assert AfterData(CRLF + tail) == tail;
      DechunkedCoding(chunks[1..], last, rest);
    }
  }

  /** Before the zero-size line is complete the decoding is not done, and never crashes. */
  lemma {:induction false} NotDoneBefore(chunks: seq<Chunk>, last: Chunk, k: nat)
    requires ValidMessage(chunks, last) && k < |Coding(chunks, last)|
    ensures var d := Dechunked(Coding(chunks, last)[..k]); d.Decoded? && !d.done
    decreases |chunks|
  {
    hide ChunkSize, Spells, Index, AfterData, Dechunked, Utf8Text, Chunk.Size;
    var c := if chunks == [] then last else chunks[0];
    assert c.Valid() && Index(c.Line(), CRLF) == -1;
    hide Chunk.Valid;
    var b := Coding(chunks, last);
    var p := b[..k];
    var line := c.Line();
    var n := |line|;
    if k < n + 2 {
      assert p == (line + CRLF)[..k];
      NoLineEndBefore(line, k);
      NotDone(p);
    } else {
      SizeOfLine(c);
      var tail := Coding(chunks[1..], last);
      assert b == line + CRLF + (c.data + CRLF + tail);
      var rest := (c.data + CRLF + tail)[..k - n - 2];
      assert p == line + CRLF + rest;
      DechunkedLine(line, rest);
      if |c.data| <= |rest| {
        var left := (CRLF + tail)[..|rest| - |c.data|];
        assert rest[..|c.data|] == c.data && rest[|c.data|..] == left;
        TailGrows(left, [], c.data);
        if |left| >= 2 {
          assert left == CRLF + tail[..|left| - 2];
          AfterLineEnd(tail[..|left| - 2]);
          NotDoneBefore(chunks[1..], last, |left| - 2);
        }
      }
    }
  }

  lemma {:induction false} NotDone(b: seq<byte>)
    requires Index(b, CRLF) < 0
    ensures Dechunked(b) == Decoded([], false)
  {
    hide Index, ChunkSize;
  }

  lemma {:induction false} AfterLineEnd(rest: seq<byte>)
    ensures AfterData(CRLF + rest) == rest
  {
  }

  /**
   On any part received so far, decoding yields a prefix of the body, and reports the end
   exactly when the zero-size line has been received.
   */
  lemma {:induction false} DechunkedPrefix(chunks: seq<Chunk>, last: Chunk, rest: seq<byte>, k: nat)
    requires ValidMessage(chunks, last) && k <= |Coding(chunks, last) + rest|
    ensures var d := Dechunked((Coding(chunks, last) + rest)[..k]);
      && d.Decoded?
      && d.out <= Body(chunks)
      && (d.done <==> |Coding(chunks, last)| <= k)
      && (d.done ==> d.out == Body(chunks))
  {
    hide Dechunked, Body, Coding;
    var b := Coding(chunks, last);
    var p := (b + rest)[..k];
    DechunkedCoding(chunks, last, rest);
    if k < |b| {
      assert p == b[..k];
      NotDoneBefore(chunks, last, k);
      assert p + (b + rest)[k..] == b + rest;
      DechunkedExtend(p, (b + rest)[k..]);
    } else {
      assert p == b + rest[..k - |b|];
      DechunkedCoding(chunks, last, rest[..k - |b|]);
    }
  }
}
