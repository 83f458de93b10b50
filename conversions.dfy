/** Typed extraction from TOML values for the first layout reader
    (src/layout/conversions.rs): each helper accepts one kind of value and
    answers the caller's error for every other. */
module Conversions {
  import opened Common
  import opened Primitives
  import opened LayoutSettings
  import opened LayoutTypes
  import Toml

  /** `extract_uint`: a non-negative integer that fits in a `u32`. */
  function ExtractUint(v: Toml.Value, error: LayoutError): (r: Result<u32, LayoutError>)
    ensures r.Ok? <==> v.Integer? && IsU32(v.n)
    ensures r.Ok? ==> r.value == v.n
    ensures r.Err? ==> r.error == error
  {
    match v
    case Integer(n) => if 0 <= n < U32_LIMIT then Ok(n) else Err(error)
    case _ => Err(error)
  }

  /** `extract_datavalue`: a table whose `type` names the type of its
      `value`. */
  function ExtractDatavalue(v: Toml.Value, codec: FloatCodec): (r: Result<seq<Primitive>, LayoutError>)
    ensures !v.Table? ==> r == Err(BadDataValueExtraction)
    ensures v.Table? && !Toml.ContainsKey(v.entries, "type") ==> r == Err(BadDataValueExtraction)
    ensures r.Ok? ==> |r.value| == 1
    ensures r.Ok? ==>
      && Toml.Get(v.entries, "type").Some?
      && Toml.Get(v.entries, "type").value.String?
      && Toml.Get(v.entries, "value").Some?
      && FromTomlCell(Toml.Get(v.entries, "type").value.s, Toml.Get(v.entries, "value").value, codec) == Ok(r.value[0])
  {
    match v
    case Table(entries) =>
      (match Toml.Get(entries, "type")
       case None => Err(BadDataValueExtraction)
       case Some(typeValue) =>
         var spec :- TypeSpecFromValue(typeValue);
         ExtractDatavalues(spec, v, codec))
    case _ => Err(BadDataValueExtraction)
  }

  /** `extract_table` */
  function ExtractTable(v: Toml.Value, error: LayoutError): (r: Result<seq<(string, Toml.Value)>, LayoutError>)
    ensures r.Ok? <==> v.Table?
    ensures r.Ok? ==> r.value == v.entries
    ensures r.Err? ==> r.error == error
  {
    match v
    case Table(entries) => Ok(entries)
    case _ => Err(error)
  }

  /** `extract_string` */
  function ExtractString(v: Toml.Value, error: LayoutError): (r: Result<string, LayoutError>)
    ensures r.Ok? <==> v.String?
    ensures r.Ok? ==> r.value == v.s
    ensures r.Err? ==> r.error == error
  {
    match v
    case String(s) => Ok(s)
    case _ => Err(error)
  }

  /** `extract_crc_location`: the keywords `start` and `end`, or an address
      that fits in a `u32`. */
  function ExtractCrcLocation(v: Toml.Value, error: LayoutError): (r: Result<CrcLocation, LayoutError>)
    ensures v == Toml.String("start") ==> r == Ok(Start)
    ensures v == Toml.String("end") ==> r == Ok(End)
    ensures v.String? && v.s != "start" && v.s != "end" ==> r == Err(error)
    ensures v.Integer? ==> (r.Ok? <==> IsU32(v.n))
    ensures v.Integer? && r.Ok? ==> r.value == Address(v.n)
    ensures !v.String? && !v.Integer? ==> r == Err(error)
    ensures r.Err? ==> r.error == error
  {
    match v
    case String(s) =>
      if s == "start" then Ok(Start)
      else if s == "end" then Ok(End)
      else Err(error)
    case Integer(n) =>
      if n >= 0 then
        (if n < U32_LIMIT then Ok(Address(n)) else Err(error))
      else Err(error)
    case _ => Err(error)
  }

  /** An address location is read exactly as `extract_uint` reads a number:
      the two accept the same integers and agree on their value. */
  lemma CrcAddressIsExtractedUint(v: Toml.Value, error: LayoutError)
    requires v.Integer?
    ensures ExtractCrcLocation(v, error).Ok? <==> ExtractUint(v, error).Ok?
    ensures ExtractUint(v, error).Ok? ==> ExtractCrcLocation(v, error) == Ok(Address(ExtractUint(v, error).value))
  {
  }
}
