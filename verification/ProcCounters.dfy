/** The seven counters as the tracker samples them, read from the text of the counter file. */
module ProcCounters {
  import opened Basics
  import T = ProcText

  type uint64 = x: int | 0 <= x < UINT64_LIMIT

  datatype Counters = Counters(rchar: uint64, wchar: uint64, syscr: uint64, syscw: uint64,
                               readBytes: uint64, writeBytes: uint64, cancelled: uint64) {
    function Fields(): seq<uint64> {
      [rchar, wchar, syscr, syscw, readBytes, writeBytes, cancelled]
    }
  }

  /** The counters that a complete table of fields holds. */
  function Record(t: T.Table): Counters
    requires T.Complete(t, T.NAMES)
  {
    Counters(t["rchar"], t["wchar"], t["syscr"], t["syscw"], t["read_bytes"], t["write_bytes"],
        t["cancelled_write_bytes"])
  }

  function TableOf(c: Counters): T.Table {
    map["rchar" := c.rchar, "wchar" := c.wchar, "syscr" := c.syscr, "syscw" := c.syscw, "read_bytes" := c.readBytes,
        "write_bytes" := c.writeBytes, "cancelled_write_bytes" := c.cancelled]
  }

  lemma TableIsComplete(c: Counters)
    ensures T.Complete(TableOf(c), T.NAMES) && Record(TableOf(c)) == c
  {
  }

  lemma RecordKeepsTable(t: T.Table)
    requires T.Complete(t, T.NAMES)
    ensures TableOf(Record(t)) == t
  {
  }

  /** Parses the file into the seven counters. */
  method ParseCounters(data: string) returns (r: Option<Counters>)
    ensures forall c: Counters :: r == Some(c) <==> T.InLanguage(T.NAMES, data, TableOf(c))
  {
    var t := T.ParseProcIO(data);
    if t.None? {
      r := None;
    } else {
      T.ProcIOExact(data, t.value);
      r := Some(Record(t.value));
      RecordKeepsTable(t.value);
    }
    forall c: Counters ensures r == Some(c) <==> T.InLanguage(T.NAMES, data, TableOf(c)) {
      T.ProcIOExact(data, TableOf(c));
      TableIsComplete(c);
    }
  }
}
