/** JSON values as the models see them; their text form is left to functions. */
module Json {
  datatype Value = Null | Bool(b: bool) | Integer(i: int) | Str(s: string) | Object(fields: Fields) | Other

  type Fields = map<string, Value>
}
