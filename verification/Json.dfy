/** JSON values as `serde_json::Value` holds them. Object equality ignores key
    order, as it does there. */
module Json {
  import opened Base

  datatype Value =
    | Null
    | Bool(truth: bool)
    | Number(literal: string)
    | String(text: string)
    | Array(items: seq<Value>)
    | Object(fields: map<string, Value>)
  {
    /** `Value::get` with a string key: absent on anything but an object. */
    function Get(key: string): Option<Value> {
      if Object? && key in fields then Some(fields[key]) else None
    }

    /** `get(key).and_then(as_array)` */
    function GetArray(key: string): Option<seq<Value>> {
      match Get(key)
      case Some(Array(items)) => Some(items)
      case _ => None
    }

    /** `get(key).and_then(as_str)` */
    function GetText(key: string): Option<string> {
      match Get(key)
      case Some(String(text)) => Some(text)
      case _ => None
    }
  }
}
