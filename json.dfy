/** A parsed JSON value, as JavaScript sees it after `JSON.parse` or
    `request.json()`. Arrays are not modelled. */
module Json {

  datatype Value =
    | Null
    | Bool(b: bool)
    | Num(n: real)
    | Str(s: string)
    | Obj(fields: map<string, Value>)
}
