/** The `ResultData` envelope that the admin service returns: a code, a
    message and a payload, filled in with JavaScript `||` defaults. */
module ResultEnvelope {
  import opened Records

  /** The JavaScript values a caller may pass as `data`; `Obj` is any object. */
  datatype JsValue<D> = Undefined | Null | Bool(b: bool) | Num(n: int) | Str(s: string) | Obj(value: D)

  /** The values `||` replaces by its right operand. */
  predicate Falsy<D>(v: JsValue<D>) {
    match v
    case Undefined => true
    case Null => true
    case Bool(b) => !b
    case Num(n) => n == 0
    case Str(s) => s == ""
    case Obj(_) => false
  }

  /** A message argument that `||` keeps: present and not the empty string. */
  predicate Kept(msg: Option<string>) {
    msg.Some? && msg.value != ""
  }

  datatype ResultData<D> = ResultData(code: int, msg: string, data: JsValue<D>)

  /** What every constructed envelope looks like: a non-empty message, and
      data that is either null or a truthy value. */
  predicate Normalised<D>(r: ResultData<D>) {
    r.msg != "" && (Falsy(r.data) ==> r.data.Null?)
  }

  /** `new ResultData(code = 0, msg?, data?)`. */
  function Make<D>(code: Option<int>, msg: Option<string>, data: JsValue<D>): (r: ResultData<D>)
    ensures Normalised(r)
    ensures code.None? ==> r.code == 0
    ensures code.Some? ==> r.code == code.value
    ensures Kept(msg) ==> r.msg == msg.value
    ensures !Kept(msg) ==> r.msg == "ok"
    ensures !Falsy(data) ==> r.data == data
    ensures Falsy(data) ==> r.data == Null
  {
    ResultData(
      if code.Some? then code.value else 0,
      if Kept(msg) then msg.value else "ok",
      if Falsy(data) then Null else data)
  }

  /** `ResultData.ok(data?, msg?)`. */
  function Ok<D>(data: JsValue<D>, msg: Option<string>): (r: ResultData<D>)
    ensures Normalised(r) && r.code == 0
    ensures r.msg == (if Kept(msg) then msg.value else "ok")
    ensures !Falsy(data) ==> r.data == data
    ensures Falsy(data) ==> r.data == Null
  {
    Make(Some(0), msg, data)
  }

  /** `ResultData.fail(code, msg?, data?)`: `code || -1`, `msg || 'fail'`. */
  function Fail<D>(code: Option<int>, msg: Option<string>, data: JsValue<D>): (r: ResultData<D>)
    ensures Normalised(r) && r.code != 0
    ensures code.Some? && code.value != 0 ==> r.code == code.value
    ensures r.msg == (if Kept(msg) then msg.value else "fail")
    ensures !Falsy(data) ==> r.data == data
    ensures Falsy(data) ==> r.data == Null
  {
    Make(Some(if code.Some? && code.value != 0 then code.value else -1),
         Some(if Kept(msg) then msg.value else "fail"),
         data)
  }

  /** The code alone tells the two factories apart. */
  lemma OkAndFailDisjoint<D>(d1: JsValue<D>, m1: Option<string>,
                             c: Option<int>, m2: Option<string>, d2: JsValue<D>)
    ensures Ok(d1, m1) != Fail(c, m2, d2)
  {
    assert Ok(d1, m1).code == 0 != Fail(c, m2, d2).code;
  }

  /** Rebuilding an envelope from its own fields gives it back unchanged. */
  lemma RewrapNormalised<D>(r: ResultData<D>)
    requires Normalised(r)
    ensures Make(Some(r.code), Some(r.msg), r.data) == r
  {
  }

  /** `fail(0, …)` and `fail(undefined, …)` both report -1. */
  lemma FailZeroIsMinusOne<D>(msg: Option<string>, data: JsValue<D>)
    ensures Fail(Some(0), msg, data).code == -1
    ensures Fail(None, msg, data).code == -1
  {
  }
}
