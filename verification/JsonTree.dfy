/** A decoded JSON document.  Numbers are kept as the literal that was written. */
module JsonTree {
  datatype Tree<S(==)> =
    | Null
    | Bool(b: bool)
    | Num(lit: string)
    | Str(s: S)
    | Arr(items: seq<Tree<S>>)
    | Obj(fields: map<S, Tree<S>>)
}
