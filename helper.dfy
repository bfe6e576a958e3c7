/** Result shapes and the structured field error shared by the ingestion core
    (the Go code's `error` values and `*helper.FieldError`). */
module Helper {

  datatype Option<+T> = None | Some(value: T)

  /** A Go `(value, error)` pair: exactly one of the two is meaningful. */
  datatype Result<+T, +E> = Ok(value: T) | Err(error: E)

  /** helper.FieldError: a validation failure scoped to one file and one field. */
  datatype FieldError = FieldError(file: string, field: string, message: string)

  /** The errors the ingestion core can return. */
  datatype Error =
    | Field(fe: FieldError)    // a *helper.FieldError
    | IO(message: string)      // an error of the filesystem walk, a file read or the YAML decoder
    | Duplicate(slug: string)  // the plain error checkPostsDup builds around a repeated slug

  /** Messages the validators put into field errors. */
  const MsgEmpty := "不能为空"
  const MsgInvalid := "无效的值"
  const MsgNegative := "不能小于 0"
  const MsgDuplicate := "存在同名的文章："

  /** The text of an error as Go's `Error()` would show its message part. */
  function Text(e: Error): (t: string)
    ensures e.Duplicate? ==> MsgDuplicate <= t && t[|MsgDuplicate|..] == e.slug
  {
    match e
    case Field(fe) => fe.message
    case IO(m) => m
    case Duplicate(s) => MsgDuplicate + s
  }
}
