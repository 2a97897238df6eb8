/** The per-user CSV records the collector keeps (`guardar_ip_en_csv`): one
    file per sanitised user name, whose cell [0,0] holds the source IP of the
    latest report. Files are modelled as their rows of cells; the byte layout
    `csv.writer` produces is not. */
module CsvStore {
  import opened Wrappers
  import opened Json
  import opened SafeFilename

  type Row = seq<string>
  type Rows = seq<Row>

  /** The files of the collector's directory, by file name; a missing key is
      a file that does not exist yet. */
  type Store = map<string, Rows>

  /** File `f` exists and its cell [0,0] holds `ip`. */
  predicate LeadingCellIs(store: Store, f: string, ip: string) {
    f in store && |store[f]| > 0 && |store[f][0]| > 0 && store[f][0][0] == ip
  }

  /** The read-modify-write of one file's rows: cell [0,0] becomes `ip`; a
      missing or empty file becomes one row with one cell, and an empty first
      row becomes a one-cell row. */
  function SetLeadingCell(rows: Rows, ip: string): (r: Rows)
    ensures |r| == if rows == [] then 1 else |rows|
    ensures |r[0]| == if rows == [] || rows[0] == [] then 1 else |rows[0]|
    ensures r[0][0] == ip
    ensures rows != [] ==> forall j :: 1 <= j < |rows[0]| ==> r[0][j] == rows[0][j]
    ensures forall i :: 1 <= i < |rows| ==> r[i] == rows[i]
  {
    var filas := if rows == [] then [[""]] else rows;
    var filas := if filas[0] == [] then [[""]] + filas[1..] else filas;
    filas[0 := filas[0][0 := ip]]
  }

  /** Writing `a` then `b` leaves what writing `b` alone leaves. */
  lemma {:induction false} LastWriteWins(rows: Rows, a: string, b: string)
    ensures SetLeadingCell(SetLeadingCell(rows, a), b) == SetLeadingCell(rows, b)
  {
    var once := SetLeadingCell(rows, b);
    var twice := SetLeadingCell(SetLeadingCell(rows, a), b);
    assert |twice| == |once|;
    assert twice[0] == once[0];
    forall i | 1 <= i < |once|
      ensures twice[i] == once[i]
    {
    }
  }

  /** Writing the same IP twice is the same as writing it once. */
  lemma Idempotent(rows: Rows, ip: string)
    ensures SetLeadingCell(SetLeadingCell(rows, ip), ip) == SetLeadingCell(rows, ip)
  {
    LastWriteWins(rows, ip, ip);
  }

  /** The file a report's `usuario` value is written to, if any: falsy values
      (None, "", 0, [], {}) use the placeholder name, strings are sanitised,
      and any other value makes `.strip()` raise inside the swallowed
      try-block, so no file is written. */
  function FileFor(usuario: Json): (f: Option<string>)
    ensures !Truthy(usuario) ==> f == Some(Placeholder + Extension)
    ensures usuario.Str? && usuario.s != [] ==> f == Some(SafeFilenameFromUser(Some(usuario.s)))
    ensures Truthy(usuario) && !usuario.Str? ==> f == None
  {
    if !Truthy(usuario) then Some(SafeFilenameFromUser(None))
    else if usuario.Str? then Some(SafeFilenameFromUser(Some(usuario.s)))
    else None
  }

  /** `guardar_ip_en_csv(usuario, ip)` on the collector's directory. */
  function SaveIp(store: Store, usuario: Json, ip: string): (r: Store)
    ensures FileFor(usuario).None? ==> r == store
    ensures FileFor(usuario).Some? ==>
              var f := FileFor(usuario).value;
              && r.Keys == store.Keys + {f}
              && r[f] == SetLeadingCell(if f in store then store[f] else [], ip)
              && forall g :: g in store && g != f ==> r[g] == store[g]
  {
    match FileFor(usuario)
    case None => store
    case Some(f) => store[f := SetLeadingCell(RowsOf(store, f), ip)]
  }

  /** The rows of a file, empty when it does not exist (`filas = []`). */
  function RowsOf(store: Store, f: string): Rows {
    if f in store then store[f] else []
  }

  /** Saving IP `a` then IP `b` for the same user leaves `b` in the leading
      cell and every other cell, row and file as before the first save. */
  lemma SaveLastWriteWins(store: Store, usuario: Json, a: string, b: string)
    ensures SaveIp(SaveIp(store, usuario, a), usuario, b) == SaveIp(store, usuario, b)
  {
    if FileFor(usuario).Some? {
      var f := FileFor(usuario).value;
      LastWriteWins(RowsOf(store, f), a, b);
    }
  }
}
