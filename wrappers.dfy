/** The optional value used for absent JSON fields, nullable columns and
    results that may not exist. */
module Wrappers {

  datatype Option<+T> = None | Some(value: T)

  /** JavaScript's `x || ''` on an optional string: an absent value and the
      empty string both give the empty string. */
  function OrEmpty(o: Option<string>): (s: string)
    ensures s == "" <==> o == None || o == Some("")
    ensures s != "" ==> o == Some(s)
  {
    match o
    case Some(v) => v
    case None => ""
  }
}
