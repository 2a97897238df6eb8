/** What both revisions of the telemetry collector share: the peer-table
    entry built from a decoded report, the table keyed by source IP, and the
    discovery reply. */
module Collector {
  import opened Wrappers
  import opened Json

  const TcpPort := 5555

  /** The fields `manejar_tcp` keeps of a report, under the table's names. */
  datatype Entry = Entry(
    hora: string,
    usuario: Json,
    os: Json,
    temperatura: Json,
    ramUsadaMB: Json,
    ramTotalMB: Json,
    servicios: Json)

  /** The in-memory peer table (`usuarios_conectados`), keyed by the TCP
      source IP of the reporting connection. */
  type Table = map<string, Entry>

  /** The report keys the collector reads; every other key (the agent also
      sends "hostname" and "ip_local") is dropped. */
  const ReadKeys: set<string> :=
    {"usuario", "sistema_operativo", "temperatura_C", "ram_usada_MB", "ram_total_MB", "servicios"}

  /** The entry for a decoded report object received at time `hora`, with the
      source's defaults: "N/A" for a missing user, None for a missing OS or
      temperature, 0 for missing RAM figures and {} for missing services. */
  function EntryFromInfo(info: map<string, Json>, hora: string): (e: Entry)
    ensures e.hora == hora
    ensures "usuario" !in info ==> e.usuario == Str("N/A")
    ensures "sistema_operativo" !in info ==> e.os == Null
    ensures "temperatura_C" !in info ==> e.temperatura == Null
    ensures "ram_usada_MB" !in info ==> e.ramUsadaMB == Num(0.0)
    ensures "ram_total_MB" !in info ==> e.ramTotalMB == Num(0.0)
    ensures "servicios" !in info ==> e.servicios == Obj(map[])
    ensures "usuario" in info ==> e.usuario == info["usuario"]
    ensures "sistema_operativo" in info ==> e.os == info["sistema_operativo"]
    ensures "temperatura_C" in info ==> e.temperatura == info["temperatura_C"]
    ensures "ram_usada_MB" in info ==> e.ramUsadaMB == info["ram_usada_MB"]
    ensures "ram_total_MB" in info ==> e.ramTotalMB == info["ram_total_MB"]
    ensures "servicios" in info ==> e.servicios == info["servicios"]
  {
    Entry(
      hora,
      Get(info, "usuario", Str("N/A")),
      Get(info, "sistema_operativo", Null),
      Get(info, "temperatura_C", Null),
      Get(info, "ram_usada_MB", Num(0.0)),
      Get(info, "ram_total_MB", Num(0.0)),
      Get(info, "servicios", Obj(map[])))
  }

  /** Two reports that agree on the keys the collector reads give the same
      entry: whatever else a report carries is dropped. */
  lemma EntryReadsOnlyKnownKeys(info: map<string, Json>, other: map<string, Json>, hora: string)
    requires forall k :: k in ReadKeys ==> (k in info <==> k in other)
    requires forall k :: k in ReadKeys && k in info ==> info[k] == other[k]
    ensures EntryFromInfo(info, hora) == EntryFromInfo(other, hora)
  {
    assert "usuario" in ReadKeys && "sistema_operativo" in ReadKeys && "temperatura_C" in ReadKeys;
    assert "ram_usada_MB" in ReadKeys && "ram_total_MB" in ReadKeys && "servicios" in ReadKeys;
  }

  /** A report as the agent builds it (`obtener_datos`). */
  datatype Report = Report(
    usuario: string,
    hostname: string,
    sistemaOperativo: string,
    ipLocal: string,
    temperatura: Json,
    ramUsadaMB: Json,
    ramTotalMB: Json,
    servicios: Json)

  /** The JSON object the agent sends for a report. */
  function ReportObject(r: Report): map<string, Json> {
    map[
      "usuario" := Str(r.usuario),
      "hostname" := Str(r.hostname),
      "sistema_operativo" := Str(r.sistemaOperativo),
      "ip_local" := Str(r.ipLocal),
      "temperatura_C" := r.temperatura,
      "ram_usada_MB" := r.ramUsadaMB,
      "ram_total_MB" := r.ramTotalMB,
      "servicios" := r.servicios]
  }

  /** A complete report reaches the table field for field, without defaults;
      only its hostname and local IP are lost. */
  lemma ReportRoundTrip(r: Report, hora: string)
    ensures EntryFromInfo(ReportObject(r), hora) ==
              Entry(hora, Str(r.usuario), Str(r.sistemaOperativo), r.temperatura,
                    r.ramUsadaMB, r.ramTotalMB, r.servicios)
  {
  }

  /** A discovery reply: the collector's IP and, in the later revision, its
      telemetry port. */
  datatype Reply = Reply(ip: string, tcpPort: Option<int>)
}
