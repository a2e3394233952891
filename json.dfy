/** Values of the remote JSON tree and the wrappers shared by every module. */
module Json {

  datatype Option<+T> = None | Some(value: T)

  /** A store call either yields a value or fails with the message the repository throws. */
  datatype Result<+T> = Success(value: T) | Failure(error: string)

  /** A leaf of a stored record: a string, a (server-clock) number or a list of strings. */
  datatype Value = Text(text: string) | Number(num: int) | TextList(items: seq<string>)

  /** One record of a collection: field name to value, as the store keeps it. */
  type Fields = map<string, Value>
}
