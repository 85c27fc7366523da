/** The KPI schema read from the configuration file: for each KPI code, in
  * file order, its allowed units (the first is the canonical one), its
  * synonyms and its display metadata.  A missing or null list is `[]`. */
module Schema {
  import opened Wrappers
  import opened Dicts

  datatype KpiMeta = KpiMeta(
    units: seq<string>,
    synonyms: seq<string>,
    labelText: Option<string>,
    description: Option<string>)

  type KpiSchema = Dict<KpiMeta>

  /** `kpi_schema.get(code, {}).get("units", [])`. */
  function UnitsOf(schema: KpiSchema, code: string): seq<string> {
    match schema.Get(code)
    case Some(m) => m.units
    case None => []
  }

  /** `kpi_schema.get(code, {}).get("synonyms", [])`. */
  function SynonymsOf(schema: KpiSchema, code: string): seq<string> {
    match schema.Get(code)
    case Some(m) => m.synonyms
    case None => []
  }
}
