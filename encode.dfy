/** `Encode`: picks the encoding mode from the dynamic type of the value. */
module Encoding {
  import opened Text
  import opened Values
  import FullMode
  import SimpleMode

  /** The value handed to `Encode`, by its dynamic type. */
  datatype Data =
    | FullData(full: map<string, Value>)                       // map[string]interface{}
    | SimpleData(simple: map<string, map<string, string>>)   // map[string]map[string]string
    | OtherData                                               // anything else

  datatype Result = Ok(out: string) | Err(message: string)

  const InvalidData := "ini: invalid data to encode as ini"

  /** `Encode(v, defSection...)`: a full-mode map goes to EncodeFull, a
      simple-mode map to EncodeSimple, anything else is an error. */
  method Encode(v: Data, defSection: seq<string>) returns (r: Result, ghost orders: map<string, seq<string>>)
    ensures v.FullData? ==>
              FullMode.ValidOrders(v.full, orders) &&
              r == Ok(FullMode.FullDoc(v.full, DefaultSectionName(defSection), orders))
    ensures v.SimpleData? ==> r == Ok(SimpleMode.SimpleDoc(v.simple, DefaultSectionName(defSection)))
    ensures v.OtherData? <==> r.Err?
    ensures r.Err? ==> r.message == InvalidData
  {
    orders := map[];
    match v {
      case FullData(data) =>
        var out;
        out, orders := FullMode.EncodeFull(data, defSection);
        r := Ok(out);
      case SimpleData(data) =>
        var out := SimpleMode.EncodeSimple(data, defSection);
        r := Ok(out);
      case OtherData =>
        r := Err(InvalidData);
    }
  }
}
