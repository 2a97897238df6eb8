/** The full revision of the collector: framed telemetry connections that
    update the peer table and the per-user CSV files, and a discovery
    responder gated by an optional shared token. */
module CollectorWin {
  import opened Wrappers
  import opened Json
  import opened Framing
  import opened CsvStore
  import opened Collector

  /** The decoders the collector calls: `bytes.decode(errors="replace")`,
      which always succeeds, and `json.loads`, which may fail. */
  datatype Codec = Codec(decode: seq<byte> -> string, loads: string -> Option<Json>)

  /** The collector's state: the peer table and the CSV files. */
  datatype State = State(table: Table, store: Store)

  /** The report object a framed document decodes to; a document that does
      not decode, or decodes to something other than an object (on which
      `.get` raises), gives nothing. */
  function DecodeReport(codec: Codec, doc: seq<byte>): (r: Option<map<string, Json>>)
    ensures r.Some? <==> codec.loads(codec.decode(doc)).Some? && codec.loads(codec.decode(doc)).value.Obj?
    ensures r.Some? ==> codec.loads(codec.decode(doc)).value == Obj(r.value)
  {
    match codec.loads(codec.decode(doc))
    case Some(Obj(fields)) => Some(fields)
    case _ => None
  }

  /** The report a connection delivers, if it is framed and decodes. */
  function ConnectionReport(codec: Codec, chunks: seq<Chunk>): Option<map<string, Json>> {
    match Document(FrameOf(chunks))
    case None => None
    case Some(doc) => DecodeReport(codec, doc)
  }

  /** One accepted connection of `manejar_tcp` from `src`, at time `hora`: a
      report replaces the table entry for `src` and saves `src` in the
      reporting user's CSV file; any failure leaves the state unchanged. */
  function HandleConnection(s: State, src: string, chunks: seq<Chunk>, hora: string, codec: Codec): (r: State)
    ensures ConnectionReport(codec, chunks).None? ==> r == s
    ensures ConnectionReport(codec, chunks).Some? ==>
              var e := EntryFromInfo(ConnectionReport(codec, chunks).value, hora);
              && r.table.Keys == s.table.Keys + {src}
              && r.table[src] == e
              && (forall k :: k in s.table && k != src ==> r.table[k] == s.table[k])
              && r.store == SaveIp(s.store, e.usuario, src)
              && (FileFor(e.usuario).None? ==> r.store == s.store)
              && (FileFor(e.usuario).Some? ==>
                    var f := FileFor(e.usuario).value;
                    && r.store.Keys == s.store.Keys + {f}
                    && LeadingCellIs(r.store, f, src)
                    && forall g :: g in s.store && g != f ==> r.store[g] == s.store[g])
  {
    match ConnectionReport(codec, chunks)
    case None => s
    case Some(info) =>
      var e := EntryFromInfo(info, hora);
      State(s.table[src := e], SaveIp(s.store, e.usuario, src))
  }

  /** Reports from two different sources land in independent entries: their
      order does not matter to the table. */
  lemma DistinctSourcesCommute(s: State, a: string, ca: seq<Chunk>, b: string, cb: seq<Chunk>,
                               hora: string, codec: Codec)
    requires a != b
    ensures HandleConnection(HandleConnection(s, a, ca, hora, codec), b, cb, hora, codec).table
         == HandleConnection(HandleConnection(s, b, cb, hora, codec), a, ca, hora, codec).table
  {
  }

  /** A later report from the same source replaces the earlier entry wholly. */
  lemma SameSourceLastWins(s: State, src: string, c1: seq<Chunk>, c2: seq<Chunk>,
                           h1: string, h2: string, codec: Codec)
    requires ConnectionReport(codec, c2).Some?
    ensures HandleConnection(HandleConnection(s, src, c1, h1, codec), src, c2, h2, codec).table
         == HandleConnection(s, src, c2, h2, codec).table
  {
  }

  /** End to end: a report sent as one newline-terminated line (the agent may
      also close without the newline) reaches the table unchanged and puts
      the source IP in the user's CSV file. */
  lemma ReportReachesCollector(s: State, src: string, r: Report, wire: seq<byte>,
                               rest: seq<Chunk>, hora: string, codec: Codec)
    requires Newline !in wire && !IsBlank(wire)
    requires codec.loads(codec.decode(wire)) == Some(Obj(ReportObject(r)))
    requires rest == [] || rest == [[Newline]]
    ensures var t := HandleConnection(s, src, [wire] + rest, hora, codec);
            && src in t.table && t.table[src] == Entry(hora, Str(r.usuario), Str(r.sistemaOperativo), r.temperatura,
                                     r.ramUsadaMB, r.ramTotalMB, r.servicios)
            && FileFor(Str(r.usuario)).Some?
            && LeadingCellIs(t.store, FileFor(Str(r.usuario)).value, src)
  {
    ReportRoundTrip(r, hora);
    var chunks := [wire] + rest;
    if rest == [] {
      assert Received(chunks[1..]) == [];
      assert Received(chunks) == wire;
    } else {
      assert chunks[1..] == [[Newline]];
      assert Received(chunks[1..][1..]) == [];
      assert Received(chunks) == wire + [Newline];
      FirstNewlineOfExtension([Newline], []);
      assert FirstNewline(wire + [Newline]) == |wire|;
      assert (wire + [Newline])[..|wire|] == wire;
    }
  }

  /** The discovery gate: a token is required when DISCOVERY_TOKEN is set to
      a non-empty string. */
  predicate TokenRequired(token: Option<string>) {
    token.Some? && token.value != []
  }

  /** The answer to one decoded probe in `manejar_udp`. */
  function ReplyToProbe(token: Option<string>, probe: Json, localIp: string): (r: Option<Reply>)
    ensures r.Some? ==> r.value == Reply(localIp, Some(TcpPort))
    ensures !TokenRequired(token) ==> r.Some?
    ensures TokenRequired(token) ==>
              (r.Some? <==> probe.Obj? && "token" in probe.fields && probe.fields["token"] == Str(token.value))
  {
    if TokenRequired(token) && !(probe.Obj? && Get(probe.fields, "token", Null) == Str(token.value)) then
      None
    else
      Some(Reply(localIp, Some(TcpPort)))
  }

  /** One received datagram: one that does not decode is dropped without a
      reply, and the loop goes on with the next. */
  function HandleDatagram(token: Option<string>, datagram: seq<byte>, localIp: string, codec: Codec): (r: Option<Reply>)
    ensures codec.loads(codec.decode(datagram)).None? ==> r.None?
    ensures codec.loads(codec.decode(datagram)).Some? ==>
              r == ReplyToProbe(token, codec.loads(codec.decode(datagram)).value, localIp)
  {
    match codec.loads(codec.decode(datagram))
    case None => None
    case Some(probe) => ReplyToProbe(token, probe, localIp)
  }

  /** No identity is compared: two probe objects that agree on their token
      get the same answer, whatever users they name. */
  lemma GateIgnoresIdentity(token: Option<string>, p: map<string, Json>, q: map<string, Json>, localIp: string)
    requires ("token" in p <==> "token" in q)
    requires "token" in p ==> p["token"] == q["token"]
    ensures ReplyToProbe(token, Obj(p), localIp) == ReplyToProbe(token, Obj(q), localIp)
  {
  }
}
