/**
 * The document chunk shared by the knowledge store and the ingestion
 * pipeline: a text and a metadata dictionary.
 */
module Documents {
  import opened Wrappers
  import opened PyStr

  /** A metadata value: the pipeline stores strings, integers and JSON null. */
  datatype MetaValue = Str(s: string) | Num(n: int) | Null

  type Metadata = map<string, MetaValue>

  /** `metadata.get(key)`. */
  function Get(m: Metadata, key: string): (r: Option<MetaValue>)
    ensures r.Some? <==> key in m
  {
    if key in m then Some(m[key]) else None
  }

  /** `metadata.get(key)` where a missing key reads as None. */
  function GetOrNull(m: Metadata, key: string): MetaValue {
    Get(m, key).GetOr(Null)
  }

  /** How an f-string renders a metadata value. */
  function Show(v: MetaValue): string {
    match v
    case Str(s) => s
    case Num(n) => IntToString(n)
    case Null => "None"
  }

  /** A document chunk (LlamaIndex `Document`): its text and its metadata. */
  datatype Doc = Doc(text: string, metadata: Metadata)
}
