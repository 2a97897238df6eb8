/** The earlier revision of the collector: each connection is one `recv` of
    at most 4096 bytes, decoded strictly and stripped, with no CSV file; the
    discovery responder answers only probes naming the local user. */
module CollectorEarly {
  import opened Wrappers
  import opened Text
  import opened Json
  import opened Framing
  import opened Collector

  /** The decoders the collector calls: `bytes.decode()`, which fails on
      bytes that are not UTF-8, and `json.loads`. */
  datatype Codec = Codec(decode: seq<byte> -> Option<string>, loads: string -> Option<Json>)

  /** The one `recv(BUFFER_SIZE)` the handler makes: the first chunk, or
      nothing when the peer closed at once. */
  function FirstReceive(chunks: seq<Chunk>): (r: seq<byte>)
    ensures WellSized(chunks) ==> |r| <= BufferSize
    ensures chunks != [] ==> r == chunks[0]
  {
    if chunks == [] then [] else chunks[0]
  }

  /** The stripped text of the first receive, when it decodes and is not
      empty: the guard `if not datos: continue`. */
  function Payload(codec: Codec, chunks: seq<Chunk>): (p: Option<string>)
    ensures p.Some? ==> p.value != [] && !IsSpace(p.value[0]) && !IsSpace(p.value[|p.value| - 1])
    ensures p.Some? ==> codec.decode(FirstReceive(chunks)).Some?
                        && p.value == Strip(codec.decode(FirstReceive(chunks)).value)
    ensures p.None? <==> codec.decode(FirstReceive(chunks)).None?
                         || AllSpace(codec.decode(FirstReceive(chunks)).value)
  {
    match codec.decode(FirstReceive(chunks))
    case None => None
    case Some(text) =>
      var datos := Strip(text);
      if datos == [] then None else Some(datos)
  }

  /** One accepted connection of `manejar_tcp` from `src` at time `hora`. */
  function HandleConnection(table: Table, src: string, chunks: seq<Chunk>, hora: string, codec: Codec): (r: Table)
    ensures Payload(codec, chunks).None? ==> r == table
    ensures Payload(codec, chunks).Some? ==>
              match codec.loads(Payload(codec, chunks).value)
              case Some(Obj(info)) =>
                && r.Keys == table.Keys + {src}
                && r[src] == EntryFromInfo(info, hora)
                && forall k :: k in table && k != src ==> r[k] == table[k]
              case _ => r == table
  {
    match Payload(codec, chunks)
    case None => table
    case Some(datos) =>
      match codec.loads(datos)
      case Some(Obj(info)) => table[src := EntryFromInfo(info, hora)]
      case _ => table
  }

  /** Only the first receive matters: bytes the peer sends after it are
      never read. */
  lemma OnlyFirstReceive(table: Table, src: string, first: Chunk, later: seq<Chunk>,
                         hora: string, codec: Codec)
    ensures HandleConnection(table, src, [first] + later, hora, codec)
         == HandleConnection(table, src, [first], hora, codec)
  {
  }

  /** An empty or whitespace-only payload changes nothing. */
  lemma BlankPayloadIgnored(table: Table, src: string, chunks: seq<Chunk>, hora: string, codec: Codec)
    requires codec.decode(FirstReceive(chunks)).Some?
    requires AllSpace(codec.decode(FirstReceive(chunks)).value)
    ensures HandleConnection(table, src, chunks, hora, codec) == table
  {
  }

  /** Padding a payload with whitespace does not change how it is handled. */
  lemma PaddingIgnored(table: Table, src: string, a: string, text: string, b: string,
                       c1: seq<Chunk>, c2: seq<Chunk>, hora: string, codec: Codec)
    requires AllSpace(a) && AllSpace(b)
    requires codec.decode(FirstReceive(c1)) == Some(a + text + b)
    requires codec.decode(FirstReceive(c2)) == Some(text)
    ensures HandleConnection(table, src, c1, hora, codec) == HandleConnection(table, src, c2, hora, codec)
  {
    StripIgnoresPadding(a, text, b);
  }

  /** The answer to one decoded probe in `manejar_udp`: a reply carrying only
      the local IP, exactly when the probe's "usuario" is the local user. */
  function ReplyToProbe(localUser: string, probe: Json, localIp: string): (r: Option<Reply>)
    ensures r.Some? <==> probe.Obj? && "usuario" in probe.fields && probe.fields["usuario"] == Str(localUser)
    ensures r.Some? ==> r.value == Reply(localIp, None)
  {
    if probe.Obj? && Get(probe.fields, "usuario", Null) == Str(localUser) then
      Some(Reply(localIp, None))
    else
      None
  }

  /** One received datagram: one that does not decode is dropped without a
      reply. */
  function HandleDatagram(localUser: string, datagram: seq<byte>, localIp: string, codec: Codec): (r: Option<Reply>)
    ensures r.Some? ==> r.value == Reply(localIp, None)
    ensures r.Some? <==>
              && codec.decode(datagram).Some?
              && codec.loads(codec.decode(datagram).value).Some?
              && var probe := codec.loads(codec.decode(datagram).value).value;
                 probe.Obj? && "usuario" in probe.fields && probe.fields["usuario"] == Str(localUser)
  {
    match codec.decode(datagram)
    case None => None
    case Some(text) =>
      match codec.loads(text)
      case None => None
      case Some(probe) => ReplyToProbe(localUser, probe, localIp)
  }

  /** The earlier gate ignores any token a probe carries. */
  lemma GateIgnoresToken(localUser: string, p: map<string, Json>, t: Json, localIp: string)
    ensures ReplyToProbe(localUser, Obj(p["token" := t]), localIp) == ReplyToProbe(localUser, Obj(p), localIp)
  {
  }
}
