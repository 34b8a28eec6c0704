/** The client's configuration document: where its zones are, how they are written and loaded. */
module ZoneDocument {
  import opened Common
  import opened Models

  datatype Value = Table(entries: map<string, Value>) | ZoneTables(zones: seq<Zone>) | Scalar(text: string)

  type Document = map<string, Value>

  const WRAPPER := "counter_cruiser"
  const ZONES := "zones"

  /** The loader's rule: the wrapper table when there is one, else the whole document. A wrapper that is
      not a table cannot be used. */
  function LoadTable(doc: Document): Option<map<string, Value>> {
    if WRAPPER !in doc then Some(doc)
    else match doc[WRAPPER]
         case Table(entries) => Some(entries)
         case _ => None
  }

  /** The zones the settings get from a document: none when the key is absent, and a failure when the
      key holds something else or a zone is not valid. */
  function LoadZones(doc: Document): Option<seq<Zone>> {
    match LoadTable(doc)
    case None => None
    case Some(table) =>
      if ZONES !in table then Some([])
      else match table[ZONES]
           case ZoneTables(zones) => if forall z | z in zones :: ValidZone(z) then Some(zones) else None
           case _ => None
  }

  /** The writer: replaces the zones under the wrapper table or at the top level. */
  function WriteZones(doc: Document, zones: seq<Zone>): Option<Document> {
    if WRAPPER !in doc then Some(doc[ZONES := ZoneTables(zones)])
    else match doc[WRAPPER]
         case Table(entries) => Some(doc[WRAPPER := Table(entries[ZONES := ZoneTables(zones)])])
         case _ => None
  }

  /** Everything in a document but the zones the loader would use. */
  function Others(doc: Document): Document {
    if WRAPPER !in doc then doc - {ZONES}
    else match doc[WRAPPER]
         case Table(entries) => doc[WRAPPER := Table(entries - {ZONES})]
         case _ => doc
  }

  /** Writer and loader agree on every document, wrapped, flat or empty: they refuse the same ones;
      what was written is what is loaded, as long as every zone is valid; nothing else changes; and a
      second write leaves no trace of the first. */
  lemma WriteLoadAgree(doc: Document, zones: seq<Zone>, later: seq<Zone>)
    ensures WriteZones(doc, zones).Some? <==> LoadTable(doc).Some?
    ensures WriteZones(doc, zones).Some? ==>
              var written := WriteZones(doc, zones).value;
              && (LoadZones(written) == Some(zones) <==> forall z :: z in zones ==> ValidZone(z))
              && Others(written) == Others(doc)
              && WriteZones(written, later) == WriteZones(doc, later)
  {
    if WriteZones(doc, zones).Some? {
      var written := WriteZones(doc, zones).value;
      if WRAPPER in doc {
        var entries := doc[WRAPPER].entries;
        assert entries[ZONES := ZoneTables(zones)] - {ZONES} == entries - {ZONES};
        assert entries[ZONES := ZoneTables(zones)][ZONES := ZoneTables(later)] == entries[ZONES := ZoneTables(later)];
        assert Others(written) == Others(doc);
        assert WriteZones(written, later).value == WriteZones(doc, later).value;
      } else {
        assert WRAPPER != ZONES;
        assert Others(written) == Others(doc);
        assert WriteZones(written, later).value == WriteZones(doc, later).value;
      }
    }
  }

  /** Where the loader looks, by the keys of the file: under "counter_cruiser" when the document has that
      key, at the top otherwise, for "zones"; no such key means no zones, and a wrapper that is no table, a
      value that is no list of zones, or a zone with fewer than three vertices cannot be loaded. */
  lemma LoaderReads(doc: Document, table: map<string, Value>)
    requires if "counter_cruiser" in doc then doc["counter_cruiser"] == Table(table) else table == doc
    ensures "zones" !in table ==> LoadZones(doc) == Some([])
    ensures "zones" in table ==>
              match table["zones"]
              case ZoneTables(zones) =>
                LoadZones(doc) == if forall z :: z in zones ==> |z.polygon| >= 3 then Some(zones) else None
              case _ => LoadZones(doc) == None
  {
  }

  lemma UnusableWrapper(doc: Document, zones: seq<Zone>)
    requires "counter_cruiser" in doc && !doc["counter_cruiser"].Table?
    ensures LoadZones(doc) == None && WriteZones(doc, zones) == None
  {
  }

  /** What the writer leaves alone, key by key. */
  lemma WriterKeeps(doc: Document, zones: seq<Zone>, key: string)
    requires WriteZones(doc, zones).Some?
    ensures var written := WriteZones(doc, zones).value;
            if "counter_cruiser" in doc then
              && "counter_cruiser" in written && written["counter_cruiser"].Table?
              && (key != "counter_cruiser" ==> Same(doc, written, key))
              && (key != "zones" ==> Same(doc["counter_cruiser"].entries, written["counter_cruiser"].entries, key))
            else key != "zones" ==> Same(doc, written, key)
  {
  }

  ghost predicate Same(a: map<string, Value>, b: map<string, Value>, key: string) {
    (key in a <==> key in b) && (key in a ==> a[key] == b[key])
  }
}
