/** Option and result types shared by the whole model, and the JSON scalar used
    for audit details and token claims. */
module Wrappers {

  datatype Option<+T> = None | Some(value: T)

  /** How an operation of the services ends when it does not return normally.
      `Exception` is a thrown `\Exception` with its message; `NullReturned` is the
      PHP `TypeError` raised when a method declared to return an array returns null;
      `ObjectAsArray` is the PHP `Error` raised when an object is indexed like an array.
      The last two are not `\Exception`s, so `catch (\Exception $e)` lets them through. */
  datatype Error = Exception(message: string) | NullReturned | ObjectAsArray

  datatype Result<+T> = Ok(value: T) | Err(error: Error)

  /** Outcome of a validator: it either passes or throws with a message. */
  datatype Check = Pass | Fail(message: string)

  /** A validator's rules in the order it checks them: each is a condition
      that must hold and the message thrown when it does not. The outcome is the
      first rule that fails. */
  function FirstFailure(rules: seq<(bool, string)>): (r: Check)
    ensures r.Pass? <==> forall i :: 0 <= i < |rules| ==> rules[i].0
    ensures forall i :: 0 <= i < |rules| && !rules[i].0 && (forall j :: 0 <= j < i ==> rules[j].0) ==>
      r == Fail(rules[i].1)
  {
    if rules == [] then Pass
    else if !rules[0].0 then Fail(rules[0].1)
    else
      var r := FirstFailure(rules[1..]);
      assert forall i :: 1 <= i < |rules| ==> rules[i] == rules[1..][i - 1];
      r
  }

  /** A JSON scalar as PHP stores it in an array that is later `json_encode`d. */
  datatype Json = JNull | JBool(b: bool) | JInt(i: int) | JStr(s: string)

  /** `$x ?? null` for an optional string. */
  function OrNull(o: Option<string>): Json {
    match o
    case Some(s) => JStr(s)
    case None => JNull
  }

  function IntOrNull(o: Option<int>): Json {
    match o
    case Some(i) => JInt(i)
    case None => JNull
  }
}
