/** Newline-or-close framing of the telemetry stream (`recv_json_lines`).
    A connection is the sequence of chunks successive `recv` calls return;
    an empty chunk, or the end of the sequence, is the peer closing. */
module Framing {
  import opened Wrappers

  newtype byte = x: int | 0 <= x < 256

  type Chunk = seq<byte>

  const BufferSize := 4096
  const Newline: byte := 10

  /** The bytes `bytes.strip()` removes: space, \t, \n, \v, \f and \r. */
  predicate IsByteSpace(b: byte) {
    b == 32 || 9 <= b <= 13
  }

  predicate IsBlank(s: seq<byte>) {
    forall i :: 0 <= i < |s| ==> IsByteSpace(s[i])
  }

  /** Every chunk is what one `recv(BufferSize)` can return. */
  predicate WellSized(chunks: seq<Chunk>) {
    forall i :: 0 <= i < |chunks| ==> |chunks[i]| <= BufferSize
  }

  /** All bytes the peer delivers before closing. */
  function Received(chunks: seq<Chunk>): seq<byte> {
    if chunks == [] || chunks[0] == [] then [] else chunks[0] + Received(chunks[1..])
  }

  /** Position of the first newline. */
  function FirstNewline(s: seq<byte>): (k: nat)
    requires Newline in s
    ensures k < |s| && s[k] == Newline && Newline !in s[..k]
  {
    if s[0] == Newline then 0 else
      assert Newline in s[1..] by {
        var i :| 0 <= i < |s| && s[i] == Newline;
        assert s[1..][i - 1] == Newline;
      }
      var k := 1 + FirstNewline(s[1..]);
      assert s[..k] == [s[0]] + s[1..][..k - 1];
      k
  }

  /** What the framing yields: the line before the first newline, the whole
      buffer when the peer closed without a newline but sent something other
      than whitespace, or nothing. */
  datatype Frame =
    | Line(doc: seq<byte>)
    | AtClose(doc: seq<byte>)
    | Closed

  /** The frame the stream carries, stated over all received bytes at once. */
  function FrameOf(chunks: seq<Chunk>): (f: Frame)
    ensures f.Line? <==> Newline in Received(chunks)
    ensures f.Line? ==> Newline !in f.doc && f.doc + [Newline] <= Received(chunks)
    ensures f.AtClose? ==> f.doc == Received(chunks) && !IsBlank(f.doc)
    ensures f.Closed? <==> Newline !in Received(chunks) && IsBlank(Received(chunks))
  {
    var s := Received(chunks);
    if Newline in s then
      var k := FirstNewline(s);
      assert s[..k] + [Newline] == s[..k + 1];
      Line(s[..k])
    else if !IsBlank(s) then AtClose(s)
    else Closed
  }

  /** The document handed to `json.loads`, if any. */
  function Document(f: Frame): Option<seq<byte>> {
    match f
    case Line(doc) => Some(doc)
    case AtClose(doc) => Some(doc)
    case Closed => None
  }

  /** `recv_json_lines`, chunk by chunk. `calls` counts the `recv` calls made;
      once the buffer holds a newline no further chunk is read. */
  method RecvJsonLines(chunks: seq<Chunk>) returns (f: Frame, calls: nat)
    ensures f == FrameOf(chunks)
    ensures 1 <= calls <= |chunks| + 1
    ensures f.Line? ==> calls <= |chunks|
                        && Newline in Received(chunks[..calls])
                        && Newline !in Received(chunks[..calls - 1])
  {
    var buf: seq<byte> := [];
    var i := 0;
    while true
      invariant 0 <= i <= |chunks|
      invariant forall j :: 0 <= j < i ==> chunks[j] != []
      invariant buf == Received(chunks[..i])
      invariant Newline !in buf
      decreases |chunks| - i
    {
      var chunk := if i < |chunks| then chunks[i] else [];
      if chunk == [] {
        ReceivedUpToClose(chunks, i);
        if !IsBlank(buf) {
          f := AtClose(buf);
        } else {
          f := Closed;
        }
        calls := i + 1;
        return;
      }
      ReceivedSnoc(chunks, i);
      buf := buf + chunk;
      i := i + 1;
      if Newline in buf {
        ReceivedPrefix(chunks, i);
        FirstNewlineOfExtension(buf, Received(chunks[i..]));
        f := Line(buf[..FirstNewline(buf)]);
        calls := i;
        return;
      }
    }
  }

  lemma {:induction false} ReceivedSnoc(chunks: seq<Chunk>, i: nat)
    requires i < |chunks|
    requires forall j :: 0 <= j <= i ==> chunks[j] != []
    ensures Received(chunks[..i + 1]) == Received(chunks[..i]) + chunks[i]
    decreases i
  {
    if i == 0 {
      assert chunks[..1][1..] == [];
    } else {
      assert chunks[..i + 1][1..] == chunks[1..][..i];
      assert chunks[..i][1..] == chunks[1..][..i - 1];
      ReceivedSnoc(chunks[1..], i - 1);
    }
  }

  /** Bytes delivered split at any point before the close. */
  lemma {:induction false} ReceivedPrefix(chunks: seq<Chunk>, i: nat)
    requires i <= |chunks|
    requires forall j :: 0 <= j < i ==> chunks[j] != []
    ensures Received(chunks) == Received(chunks[..i]) + Received(chunks[i..])
    decreases i
  {
    if i > 0 {
      assert chunks[..i][1..] == chunks[1..][..i - 1];
      assert chunks[i..] == chunks[1..][i - 1..];
      ReceivedPrefix(chunks[1..], i - 1);
    } else {
      assert chunks[..0] == [] && chunks[0..] == chunks;
    }
  }

  lemma ReceivedUpToClose(chunks: seq<Chunk>, i: nat)
    requires i <= |chunks|
    requires forall j :: 0 <= j < i ==> chunks[j] != []
    requires i == |chunks| || chunks[i] == []
    ensures Received(chunks) == Received(chunks[..i])
  {
    ReceivedPrefix(chunks, i);
    assert Received(chunks[i..]) == [];
  }

  lemma FirstNewlineOfExtension(a: seq<byte>, b: seq<byte>)
    requires Newline in a
    ensures Newline in a + b
    ensures FirstNewline(a + b) == FirstNewline(a)
    ensures (a + b)[..FirstNewline(a)] == a[..FirstNewline(a)]
  {
    var k := FirstNewline(a);
    assert (a + b)[k] == Newline;
    assert (a + b)[..k] == a[..k];
  }

  /** Once the delivered bytes hold a newline, whatever the peer sends next
      is never read and does not change the frame. */
  lemma FrameIgnoresLaterChunks(chunks: seq<Chunk>, rest: seq<Chunk>)
    requires Newline in Received(chunks)
    ensures FrameOf(chunks + rest) == FrameOf(chunks)
  {
    var s, t := Received(chunks), Received(chunks + rest);
    ReceivedAppend(chunks, rest);
    var tail := t[|s|..];
    assert t == s + tail;
    FirstNewlineOfExtension(s, tail);
    FrameOfLine(chunks);
    FrameOfLine(chunks + rest);
  }

  lemma FrameOfLine(chunks: seq<Chunk>)
    requires Newline in Received(chunks)
    ensures FrameOf(chunks) == Line(Received(chunks)[..FirstNewline(Received(chunks))])
  {
  }

  /** Later chunks can only extend what was delivered. */
  lemma {:induction false} ReceivedAppend(chunks: seq<Chunk>, rest: seq<Chunk>)
    ensures Received(chunks) <= Received(chunks + rest)
    decreases |chunks|
  {
    if chunks != [] && chunks[0] != [] {
      assert (chunks + rest)[1..] == chunks[1..] + rest;
      ReceivedAppend(chunks[1..], rest);
    }
  }

  /** A connection closed before any newline yields its whole content as the
      document, or nothing when that content is empty or whitespace. */
  lemma CloseWithoutNewline(chunks: seq<Chunk>)
    requires Newline !in Received(chunks)
    ensures Document(FrameOf(chunks)) ==
              if IsBlank(Received(chunks)) then None else Some(Received(chunks))
  {
  }
}
