// Decoded JSON, as internal/proxy reads it: accessors answer an empty value where the shape is wrong.
module Json {
  import opened Prelude

  datatype Json =
    | Null
    | Bool(value: bool)
    | Num(literal: string)
    | Str(text: string)
    | Arr(items: seq<Json>)
    | Obj(fields: map<string, Json>)

  type Object = map<string, Json>

  function ObjectOf(v: Json): Object {
    if v.Obj? then v.fields else map[]
  }

  function ArrayOf(v: Json): seq<Json> {
    if v.Arr? then v.items else []
  }

  function Text(v: Json): string {
    if v.Str? then v.text else ""
  }

  // A missing field reads as null.
  function Field(o: Object, key: string): Json {
    if key in o then o[key] else Null
  }

  datatype Vendor = Anthropic | OpenAI | ChatGPT | Gemini

  predicate HasSuffix(s: string, suffix: string) {
    |suffix| <= |s| && s[|s| - |suffix|..] == suffix
  }
}
